/**
 * The console command reader of the carrier/receiver/baseband firmware (command_receiver.c):
 * core 1 collects characters from the serial console into a line, classifies each completed
 * line as a command event and offers the event to a 10-deep queue that the main loop drains.
 */
module CommandReceiver {
  import opened Common

  /** `static char command[100]`. */
  const COMMAND_SIZE: nat := 100
  const COMMAND_QUEUE_LENGTH: nat := 10
  /** `(char) EOF`: the byte 0xFF, `char` being unsigned on the target. */
  const EOF_CHAR: char := 'ÿ'

  /** What `getchar` returns: a byte, or EOF. */
  datatype Input = Byte(b: byte) | Eof

  /** `command_struct`: a command letter and four unsigned values. */
  datatype CommandEvent = CommandEvent(cmd: char, value1: u32, value2: u32, value3: u32, value4: u32)

  /** An event with all four values 0. */
  function Plain(cmd: char): CommandEvent
  {
    CommandEvent(cmd, 0, 0, 0, 0)
  }

  /** `'\n'`, `'\r'` and EOF end a line. */
  predicate IsTerminator(input: Input)
  {
    input == Eof || input == Byte(10) || input == Byte(13)
  }

  /** `(char) input`: the character stored for an input. */
  function StoredChar(input: Input): char
  {
    match input
    case Byte(b) => b as char
    case Eof => EOF_CHAR
  }

  /** The commands that take no values: help, start, terminate. */
  predicate IsBare(c: char)
  {
    c == 'h' || c == 's' || c == 't'
  }

  /** The letters of the five commands. */
  predicate IsCommandLetter(c: char)
  {
    c == 'c' || c == 'b' || IsBare(c)
  }

  // ---------------------------------------------------------------------------
  // sscanf(command, "%c %u ...")
  // ---------------------------------------------------------------------------

  /** `isspace` in the C locale: space, `\t`, `\n`, `\v`, `\f`, `\r`. */
  predicate IsSpace(c: char)
  {
    c == ' ' || '\t' <= c <= '\r'
  }

  predicate IsDigit(c: char)
  {
    '0' <= c <= '9'
  }

  /** The C string held in a buffer: the characters before the first NUL. */
  function CString(s: seq<char>): (t: seq<char>)
    ensures t <= s && '\0' !in t
    ensures |t| < |s| ==> s[|t|] == '\0'
  {
    if s == [] || s[0] == '\0' then [] else [s[0]] + CString(s[1..])
  }

  /** A buffer with a NUL written after `s` holds the C string of `s`. */
  lemma {:induction false} CStringTerminated(s: seq<char>)
    ensures CString(s + ['\0']) == CString(s)
  {
    if s != [] && s[0] != '\0' {
      assert (s + ['\0'])[1..] == s[1..] + ['\0'];
      CStringTerminated(s[1..]);
    }
  }

  /** The input after the whitespace a ` ` directive or `%u` skips. */
  function SkipSpace(s: seq<char>): (t: seq<char>)
    ensures |t| <= |s|
    ensures t == [] || !IsSpace(t[0])
  {
    if s != [] && IsSpace(s[0]) then SkipSpace(s[1..]) else s
  }

  /** The length of the leading run of decimal digits. */
  function DigitRun(s: seq<char>): (n: nat)
    ensures n <= |s|
    ensures forall i :: 0 <= i < n ==> IsDigit(s[i])
    ensures n < |s| ==> !IsDigit(s[n])
  {
    if s != [] && IsDigit(s[0]) then 1 + DigitRun(s[1..]) else 0
  }

  /** The value of a string of decimal digits, most significant first. */
  function DecimalValue(digits: seq<char>): nat
    requires forall i :: 0 <= i < |digits| ==> IsDigit(digits[i])
  {
    if digits == [] then 0
    else
      var last := digits[|digits| - 1];
      assert IsDigit(last);
      DecimalValue(digits[..|digits| - 1]) * 10 + (last as int - '0' as int)
  }

  /**
   * The values of the `%u` conversions that succeed one after another: each skips whitespace and
   * needs at least one digit; the first field without one ends the scan.
   */
  function ScanNumbers(s: seq<char>): (ns: seq<nat>)
    decreases |s|
  {
    var t := SkipSpace(s);
    var n := DigitRun(t);
    if n == 0 then [] else [DecimalValue(t[..n])] + ScanNumbers(t[n..])
  }

  /** The numbers after the `%c` character of a line. */
  function Fields(line: seq<char>): seq<nat>
  {
    if line == [] then [] else ScanNumbers(line[1..])
  }

  /**
   * The result of `sscanf(line, "%c %u ... %u", ...)` with `n` `%u` conversions: EOF (-1) for
   * the empty string, otherwise the character and the numbers converted before the first failure.
   */
  function Matched(line: seq<char>, n: nat): (r: int)
    ensures r == -1 <==> line == []
    ensures line != [] ==> 1 <= r <= n + 1 && (r == n + 1 <==> |Fields(line)| >= n)
  {
    if line == [] then -1 else 1 + Min(n, |Fields(line)|)
  }

  /** A `%u` value stored in a `uint32_t`, held at the largest value when it does not fit. */
  function Unsigned(v: nat): (r: u32)
    ensures v < U32_MOD ==> r == v
  {
    if v < U32_MOD then v else U32_MOD - 1
  }

  /**
   * The decision tree of `readInput_core1`: four numbers make a `c` command, three a `b` command,
   * fewer leave `h`, `s` or `t`; every other line is the error event `e`.
   */
  function Classify(line: seq<char>): (e: CommandEvent)
    ensures IsCommandLetter(e.cmd) || e.cmd == 'e'
    ensures e.cmd == 'c' <==> line != [] && line[0] == 'c' && |Fields(line)| >= 4
    ensures e.cmd == 'b' <==> line != [] && line[0] == 'b' && |Fields(line)| == 3
    ensures IsBare(e.cmd) <==> line != [] && IsBare(line[0]) && |Fields(line)| < 3
    ensures IsBare(e.cmd) ==> e.cmd == line[0]
    ensures e.cmd == 'c' ==> var ns := Fields(line);
      e == CommandEvent('c', Unsigned(ns[0]), Unsigned(ns[1]), Unsigned(ns[2]), Unsigned(ns[3]))
    ensures e.cmd == 'b' ==> var ns := Fields(line);
      e == CommandEvent('b', Unsigned(ns[0]), Unsigned(ns[1]), Unsigned(ns[2]), 0)
    ensures e.cmd != 'c' && e.cmd != 'b' ==> e == Plain(e.cmd)
  {
    if Matched(line, 4) == 5 then
      var ns := Fields(line);
      if line[0] == 'c' then CommandEvent('c', Unsigned(ns[0]), Unsigned(ns[1]), Unsigned(ns[2]), Unsigned(ns[3]))
      else Plain('e')
    else if Matched(line, 3) == 4 then
      var ns := Fields(line);
      if line[0] == 'b' then CommandEvent('b', Unsigned(ns[0]), Unsigned(ns[1]), Unsigned(ns[2]), 0)
      else Plain('e')
    else if Matched(line, 0) != 1 then Plain('e')
    else if IsBare(line[0]) then Plain(line[0])
    else Plain('e')
  }

  /** Single digits each after one space, as in `" 1 2 3"`. */
  function Spaced(ds: seq<char>): seq<char>
  {
    if ds == [] then [] else [' ', ds[0]] + Spaced(ds[1..])
  }

  predicate AllDigits(ds: seq<char>)
  {
    forall i :: 0 <= i < |ds| ==> IsDigit(ds[i])
  }

  function DigitValues(ds: seq<char>): (vs: seq<nat>)
    requires AllDigits(ds)
    ensures |vs| == |ds| && forall i :: 0 <= i < |vs| ==> vs[i] < 10
  {
    if ds == [] then [] else [ds[0] as int - '0' as int] + DigitValues(ds[1..])
  }

  /** Space-separated single digits scan as their values. */
  lemma {:induction false} ScanSpaced(ds: seq<char>)
    requires AllDigits(ds)
    ensures ScanNumbers(Spaced(ds)) == DigitValues(ds)
  {
    if ds != [] {
      var d, rest := ds[0], Spaced(ds[1..]);
      var s := Spaced(ds);
      assert IsDigit(d);
      assert s == [' ', d] + rest;
      assert s[1..] == [d] + rest;
      assert SkipSpace(s) == [d] + rest;
      assert rest == [] || rest[0] == ' ';
      assert DigitRun([d] + rest) == 1 by {
        assert ([d] + rest)[1..] == rest;
      }
      assert ([d] + rest)[..1] == [d];
      assert DecimalValue([d]) == d as int - '0' as int by {
        assert [d][..0] == [];
      }
      assert ([d] + rest)[1..] == rest;
      ScanSpaced(ds[1..]);
    }
  }

  /** A command letter followed by space-separated digits has the digits' values as its fields. */
  lemma {:induction false} FieldsOfSpaced(letter: char, ds: seq<char>)
    requires AllDigits(ds)
    ensures Fields([letter] + Spaced(ds)) == DigitValues(ds)
  {
    ScanSpaced(ds);
    assert ([letter] + Spaced(ds))[1..] == Spaced(ds);
  }

  /** A line that does not start with a command letter is an error, whatever follows. */
  lemma {:induction false} ErrorUnlessCommandLetter(line: seq<char>)
    requires line != [] && !IsCommandLetter(line[0])
    ensures Classify(line) == Plain('e')
  {
  }

  /** The worked lines `c 1 2 3 4`, `b 1 2 3 4` (an error), `h 1` and `h 1 2 3` (an error). */
  lemma ClassifyExamples()
    ensures Classify(['c'] + Spaced("1234")) == CommandEvent('c', 1, 2, 3, 4)
    ensures Classify(['b'] + Spaced("1234")) == Plain('e')
    ensures Classify(['h'] + Spaced("1")) == Plain('h')
    ensures Classify(['h'] + Spaced("123")) == Plain('e')
  {
    FieldsOfSpaced('c', "1234");
    FieldsOfSpaced('b', "1234");
    FieldsOfSpaced('h', "1");
    FieldsOfSpaced('h', "123");
  }

  // ---------------------------------------------------------------------------
  // The line accumulator
  // ---------------------------------------------------------------------------

  /** `command[0..buff_pos)` and the command queue. */
  datatype ReaderState = ReaderState(command: seq<char>, queue: seq<CommandEvent>)

  /**
   * One pass of the `readInput_core1` loop as written: a terminator after at least one character
   * completes the line, which is classified and offered to the queue; anything else, including
   * a terminator at position 0, is stored, with no bound on the length.
   */
  function FeedAsWritten(st: ReaderState, input: Input): (r: ReaderState)
  {
    if IsTerminator(input) && |st.command| > 0 then
      ReaderState([], Offer(st.queue, Classify(CString(st.command)), COMMAND_QUEUE_LENGTH))
    else
      ReaderState(st.command + [StoredChar(input)], st.queue)
  }

  /**
   * The store one pass of the loop as written makes into `command`: at index `buff_pos`, the NUL
   * when the line is complete, else the input's character.
   */
  function StoreOf(st: ReaderState, input: Input): (w: (nat, char))
    ensures w.0 == |st.command|
    ensures IsTerminator(input) && |st.command| > 0 ==>
      w.1 == '\0' && CString(st.command + [w.1]) == CString(st.command)
    ensures !(IsTerminator(input) && |st.command| > 0) ==> FeedAsWritten(st, input).command[w.0] == w.1
  {
    if IsTerminator(input) && |st.command| > 0 then
      CStringTerminated(st.command);
      (|st.command|, '\0')
    else (|st.command|, StoredChar(input))
  }

  /**
   * The C loop keeps storing while no line end arrives: once 100 characters are stored, the next
   * pass writes the line end's NUL, or the next character, to `command[100]`, one past the array.
   */
  lemma {:induction false} OverlongLineOverflows(st: ReaderState, first: Input, next: Input)
    requires |st.command| == COMMAND_SIZE - 1 && !IsTerminator(first)
    ensures var full := FeedAsWritten(st, first);
      |full.command| == COMMAND_SIZE && StoreOf(full, next).0 == COMMAND_SIZE
      && (IsTerminator(next) ==> StoreOf(full, next).1 == '\0')
      && (!IsTerminator(next) ==> FeedAsWritten(full, next).command[COMMAND_SIZE] == StoredChar(next))
  {
  }

  /**
   * One pass of the loop with the buffer bound the C code lacks: a character that would leave no
   * room for the terminating NUL is dropped.
   */
  function Feed(st: ReaderState, input: Input): (r: ReaderState)
  {
    if IsTerminator(input) && |st.command| > 0 then
      ReaderState([], Offer(st.queue, Classify(CString(st.command)), COMMAND_QUEUE_LENGTH))
    else if |st.command| < COMMAND_SIZE - 1 then
      ReaderState(st.command + [StoredChar(input)], st.queue)
    else
      st
  }

  /** The bounded loop keeps the line and its NUL inside `command[100]` and the queue within 10. */
  lemma {:induction false} FeedKeepsBounds(st: ReaderState, input: Input)
    requires |st.command| < COMMAND_SIZE && |st.queue| <= COMMAND_QUEUE_LENGTH
    ensures |Feed(st, input).command| < COMMAND_SIZE
    ensures |Feed(st, input).queue| <= COMMAND_QUEUE_LENGTH
  {
  }

  /** On lines that fit, the bounded loop is the C loop. */
  lemma {:induction false} FeedAgreesWhileRoom(st: ReaderState, input: Input)
    requires |st.command| < COMMAND_SIZE - 1
    ensures Feed(st, input) == FeedAsWritten(st, input)
  {
  }

  /**
   * An event is queued only when a line ends after at least one character, and then (when the
   * queue has room) it is the classification of that line; the line buffer then starts over.
   */
  lemma {:induction false} FeedEmits(st: ReaderState, input: Input)
    ensures Feed(st, input).queue != st.queue ==> IsTerminator(input) && |st.command| > 0
    ensures IsTerminator(input) && |st.command| > 0 && |st.queue| < COMMAND_QUEUE_LENGTH ==>
      Feed(st, input) == ReaderState([], st.queue + [Classify(CString(st.command))])
    ensures IsTerminator(input) && |st.command| > 0 && |st.queue| >= COMMAND_QUEUE_LENGTH ==>
      Feed(st, input) == ReaderState([], st.queue)
  {
  }

  /** A line end with nothing before it is stored like any other character. */
  lemma {:induction false} LineEndAtStartStored(queue: seq<CommandEvent>, input: Input)
    requires IsTerminator(input)
    ensures Feed(ReaderState([], queue), input) == ReaderState([StoredChar(input)], queue)
  {
  }

  /** The loop over a sequence of inputs. */
  function FeedAll(st: ReaderState, inputs: seq<Input>): ReaderState
    decreases |inputs|
  {
    if inputs == [] then st else FeedAll(Feed(st, inputs[0]), inputs[1..])
  }

  /** A byte string as inputs. */
  function Bytes(s: seq<byte>): (r: seq<Input>)
    ensures |r| == |s|
  {
    if s == [] then [] else [Byte(s[0])] + Bytes(s[1..])
  }

  /** The characters of a byte string. */
  function Chars(s: seq<byte>): (r: seq<char>)
    ensures |r| == |s|
  {
    if s == [] then [] else [s[0] as char] + Chars(s[1..])
  }

  predicate NoLineEnd(s: seq<byte>)
  {
    forall i :: 0 <= i < |s| ==> s[i] != 10 && s[i] != 13
  }

  /** Characters without a line end are appended to the line, and nothing is queued. */
  lemma {:induction false} FeedChars(command: seq<char>, queue: seq<CommandEvent>, s: seq<byte>)
    requires NoLineEnd(s) && |command| + |s| < COMMAND_SIZE
    ensures FeedAll(ReaderState(command, queue), Bytes(s)) == ReaderState(command + Chars(s), queue)
    decreases |s|
  {
    if s != [] {
      var next := ReaderState(command + [s[0] as char], queue);
      assert s[0] != 10 && s[0] != 13;
      FeedAllStep(ReaderState(command, queue), Bytes(s));
      assert Bytes(s)[0] == Byte(s[0]) && Bytes(s)[1..] == Bytes(s[1..]);
      assert Feed(ReaderState(command, queue), Byte(s[0])) == next;
      assert NoLineEnd(s[1..]) by {
        forall i | 0 <= i < |s| - 1
          ensures s[1..][i] != 10 && s[1..][i] != 13
        {
          assert s[1..][i] == s[i + 1];
        }
      }
      FeedChars(next.command, queue, s[1..]);
      assert Chars(s) == [s[0] as char] + Chars(s[1..]);
      assert next.command + Chars(s[1..]) == command + Chars(s);
    }
  }

  /** One input, then the rest. */
  lemma {:induction false} FeedAllStep(st: ReaderState, inputs: seq<Input>)
    requires inputs != []
    ensures FeedAll(st, inputs) == FeedAll(Feed(st, inputs[0]), inputs[1..])
  {
  }

  /** Appending inputs runs the loop on from where the first part left it. */
  lemma {:induction false} FeedAllAppend(st: ReaderState, a: seq<Input>, b: seq<Input>)
    ensures FeedAll(st, a + b) == FeedAll(FeedAll(st, a), b)
    decreases |a|
  {
    if a == [] {
      assert a + b == b;
    } else {
      assert (a + b)[0] == a[0] && (a + b)[1..] == a[1..] + b;
      FeedAllStep(st, a + b);
      FeedAllStep(st, a);
      FeedAllAppend(Feed(st, a[0]), a[1..], b);
    }
  }

  /**
   * Characters without a line end followed by `'\r'` (or `'\n'`) complete the line: exactly its
   * classification is offered to the queue and the line buffer starts over.
   */
  lemma {:induction false} FeedLine(command: seq<char>, queue: seq<CommandEvent>, s: seq<byte>, end: byte)
    requires command + Chars(s) != [] && NoLineEnd(s) && |command| + |s| < COMMAND_SIZE - 1
    requires end == 10 || end == 13
    ensures FeedAll(ReaderState(command, queue), Bytes(s) + [Byte(end)])
      == ReaderState([], Offer(queue, Classify(CString(command + Chars(s))), COMMAND_QUEUE_LENGTH))
  {
    FeedAllAppend(ReaderState(command, queue), Bytes(s), [Byte(end)]);
    FeedChars(command, queue, s);
  }

  /**
   * With `"\r\n"` line ends the `'\n'` arrives at position 0, is stored, and starts the next
   * line: the first command is read as sent, the second with a leading newline, which makes it
   * an error event whatever it says.
   */
  lemma {:induction false} CrLfShiftsNextCommand(queue: seq<CommandEvent>, a: seq<byte>, b: seq<byte>)
    requires a != [] && b != [] && NoLineEnd(a) && NoLineEnd(b)
    requires |a| < COMMAND_SIZE - 1 && |b| < COMMAND_SIZE - 2
    requires |queue| + 2 <= COMMAND_QUEUE_LENGTH
    ensures FeedAll(ReaderState([], queue), Bytes(a) + [Byte(13), Byte(10)] + Bytes(b) + [Byte(13)])
      == ReaderState([], queue + [Classify(CString(Chars(a))), Plain('e')])
  {
    var first := Bytes(a) + [Byte(13)];
    var second := [Byte(10)] + (Bytes(b) + [Byte(13)]);
    assert Bytes(a) + [Byte(13), Byte(10)] + Bytes(b) + [Byte(13)] == first + second;
    FeedAllAppend(ReaderState([], queue), first, second);
    var q1 := queue + [Classify(CString(Chars(a)))];
    assert FeedAll(ReaderState([], queue), first) == ReaderState([], q1) by {
      FeedLine([], queue, a, 13);
      assert [] + Chars(a) == Chars(a);
    }
    NewlineFirstIsError(q1, b);
  }

  /** A line that starts with the stored `'\n'` is classified as an error. */
  lemma {:induction false} NewlineFirstIsError(queue: seq<CommandEvent>, b: seq<byte>)
    requires NoLineEnd(b) && |b| < COMMAND_SIZE - 2 && |queue| < COMMAND_QUEUE_LENGTH
    ensures FeedAll(ReaderState([], queue), [Byte(10)] + (Bytes(b) + [Byte(13)])) == ReaderState([], queue + [Plain('e')])
  {
    var rest := Bytes(b) + [Byte(13)];
    var second := [Byte(10)] + rest;
    assert FeedAll(ReaderState([], queue), second) == FeedAll(ReaderState(['\n'], queue), rest) by {
      FeedAllStep(ReaderState([], queue), second);
      assert second[0] == Byte(10) && second[1..] == rest;
      LineEndAtStartStored(queue, Byte(10));
      assert StoredChar(Byte(10)) == '\n';
    }
    assert FeedAll(ReaderState(['\n'], queue), rest) == ReaderState([], queue + [Plain('e')]) by {
      FeedLine(['\n'], queue, b, 13);
      var line := CString(['\n'] + Chars(b));
      assert line == ['\n'] + CString(Chars(b));
      ErrorUnlessCommandLetter(line);
    }
  }

  // ---------------------------------------------------------------------------
  // The reader on core 1
  // ---------------------------------------------------------------------------

  /**
   * The statics of command_receiver.c: `command[100]`, `buff_pos` and `command_queue` (the
   * queue is the sequence of events waiting, oldest first).
   */
  class CommandReader {
    var command: array<char>
    var buffPos: nat
    var queue: seq<CommandEvent>

    ghost predicate Valid()
      reads this
    {
      command.Length == COMMAND_SIZE && buffPos < COMMAND_SIZE && |queue| <= COMMAND_QUEUE_LENGTH
    }

    /** The line collected so far and the waiting events. */
    function Contents(): ReaderState
      reads this, command
      requires buffPos <= command.Length
    {
      ReaderState(command[..buffPos], queue)
    }

    /** The statics' initial values, with the queue emptied as `readInput_core1` does first. */
    constructor()
      ensures Valid() && fresh(command)
      ensures Contents() == ReaderState([], [])
    {
      command := new char[COMMAND_SIZE](_ => '\0');
      buffPos := 0;
      queue := [];
    }

    /**
     * One pass of the `readInput_core1` loop for the character `getchar` returned, with the
     * buffer bound of `Feed`: on a line end after at least one character the line is terminated,
     * classified and offered to the queue.
     */
    method ReadInput(input: Input)
      requires Valid()
      modifies this, command
      ensures Valid() && command == old(command)
      ensures Contents() == Feed(old(Contents()), input)
    {
      if IsTerminator(input) && buffPos > 0 {
        ghost var line := command[..buffPos];
        command[buffPos] := '\0';
        CStringTerminated(line);
        assert command[..buffPos + 1] == line + ['\0'];
        var event := Classify(CString(command[..buffPos + 1]));
        queue := Offer(queue, event, COMMAND_QUEUE_LENGTH);
        buffPos := 0;
      } else if buffPos < COMMAND_SIZE - 1 {
        command[buffPos] := StoredChar(input);
        buffPos := buffPos + 1;
      }
    }

    /** `queued_command`: whether an event is waiting. */
    method QueuedCommand() returns (waiting: bool)
      ensures waiting <==> |queue| > 0
    {
      waiting := queue != [];
    }

    /** `get_command`: a non-blocking remove of the oldest event; false when there is none. */
    method GetCommand() returns (ok: bool, event: CommandEvent)
      requires Valid()
      modifies this
      ensures Valid() && command == old(command) && buffPos == old(buffPos)
      ensures old(queue) == [] ==> !ok && queue == []
      ensures old(queue) != [] ==> ok && event == old(queue)[0] && queue == old(queue)[1..]
    {
      if queue == [] {
        ok, event := false, Plain('e');
      } else {
        ok, event := true, queue[0];
        queue := queue[1..];
      }
    }
  }
}
