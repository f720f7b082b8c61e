/**
  The connection side of the bot: the receive buffer, the line framer
  `parse`, and the two logs that stand for the socket writes (`send`) and
  the terminal output (`printall`).
 */
module Connection {
  import opened Strings
  import opened Handlers

  /**
    Everything the bot has done so far: the unframed input `buffer`, the
    framed lines written to the server, the events printed, and whether a
    panic has ended the process.
   */
  datatype State = State(buffer: string, sent: seq<string>, events: seq<Event>, halted: bool)

  /** The effect of one handled line on the logs; a panic ends the process. */
  function Apply(st: State, o: Outcome): (r: State)
    ensures r.buffer == st.buffer
    ensures |st.sent| <= |r.sent| <= |st.sent| + 1 && r.sent[..|st.sent|] == st.sent
    ensures |st.events| <= |r.events| <= |st.events| + 1 && r.events[..|st.events|] == st.events
    ensures r.halted <==> st.halted || o.Panic?
  {
    match o
    case Silent => st
    case Emit(e) => st.(events := st.events + [e])
    case Send(text) => st.(sent := st.sent + [Frame(text)])
    case Panic => st.(halted := true)
  }

  /**
    `parse`: handle buffered lines up to the first line feed-free tail, a
    blank line, or a panic. The framer sees `handle_line` only through the
    outcome `handle` gives for each line; the bot passes `HandleLine`.
   */
  function ParseFrom(handle: string -> Outcome, st: State): (r: State)
    ensures !r.halted ==> '\n' !in r.buffer
    ensures st.halted ==> r == st
    ensures |st.sent| <= |r.sent| && r.sent[..|st.sent|] == st.sent
    ensures |st.events| <= |r.events| && r.events[..|st.events|] == st.events
    decreases |st.buffer|
  {
    if st.halted || '\n' !in st.buffer then st
    else
      var pos := Find(st.buffer, '\n');
      var line := TrimEndMatches(st.buffer[..pos], '\n');
      if |line| == 0 then st.(buffer := "")
      else
        var o := handle(line);
        if o.Panic? then Apply(st, o)
        else ParseFrom(handle, Apply(st, o).(buffer := st.buffer[pos + 1..]))
  }

  /** One chunk read from the socket: appended to the buffer, then `parse`. */
  function Deliver(handle: string -> Outcome, st: State, chunk: string): (r: State)
    ensures st.halted ==> r == st
    ensures !r.halted ==> '\n' !in r.buffer
    ensures !st.halted && '\n' !in st.buffer + chunk ==> r == st.(buffer := st.buffer + chunk)
    ensures |st.sent| <= |r.sent| && r.sent[..|st.sent|] == st.sent
    ensures |st.events| <= |r.events| && r.events[..|st.events|] == st.events
  {
    if st.halted then st else ParseFrom(handle, st.(buffer := st.buffer + chunk))
  }

  // ---------------------------------------------------------------------
  // A reference definition of the framer
  // ---------------------------------------------------------------------

  /** Handle `lines` one after the other, stopping after a panic. */
  function Dispatch(handle: string -> Outcome, st: State, lines: seq<string>): State
    decreases |lines|
  {
    if st.halted || |lines| == 0 then st
    else Dispatch(handle, Apply(st, handle(lines[0])), lines[1..])
  }

  /**
    Where the framer stops in the pieces of the buffer split on line feeds:
    at the first complete piece that is empty, or at the incomplete last one.
   */
  function BlankAt(pieces: seq<string>): (k: nat)
    requires |pieces| >= 1
    ensures k <= |pieces| - 1
    ensures forall j :: 0 <= j < k ==> pieces[j] != ""
    ensures k < |pieces| - 1 ==> pieces[k] == ""
  {
    if |pieces| == 1 || pieces[0] == "" then 0 else 1 + BlankAt(pieces[1..])
  }

  /** The pieces before the stopping point. */
  function HandledPieces(pieces: seq<string>): seq<string>
    requires |pieces| >= 1
  {
    pieces[..BlankAt(pieces)]
  }

  /** The piece left over at the stopping point: the incomplete tail, or nothing at a blank line. */
  function LeftoverPiece(pieces: seq<string>): string
    requires |pieces| >= 1
  {
    if BlankAt(pieces) < |pieces| - 1 then "" else pieces[|pieces| - 1]
  }

  /** A non-blank first piece is handled, and the framer goes on with the others. */
  lemma PiecesCons(x: string, tail: seq<string>)
    requires x != "" && |tail| >= 1
    ensures HandledPieces([x] + tail) == [x] + HandledPieces(tail)
    ensures LeftoverPiece([x] + tail) == LeftoverPiece(tail)
  {
    var pieces := [x] + tail;
    assert pieces[1..] == tail;
    assert pieces[..1 + BlankAt(tail)] == [x] + tail[..BlankAt(tail)];
  }

  /** The lines `parse` hands to `handle_line`, in order, for a buffer. */
  function FramedLines(buffer: string): seq<string>
  {
    HandledPieces(Split(buffer, '\n'))
  }

  /** What `parse` leaves in the buffer: the text after the last line feed, or nothing after a blank line. */
  function Leftover(buffer: string): string
  {
    LeftoverPiece(Split(buffer, '\n'))
  }

  /** The logs a dispatch leaves do not depend on the buffer. */
  lemma {:induction false} DispatchIgnoresBuffer(handle: string -> Outcome, st: State, b: string, lines: seq<string>)
    ensures Dispatch(handle, st.(buffer := b), lines) == Dispatch(handle, st, lines).(buffer := b)
    decreases |lines|
  {
    if !st.halted && |lines| > 0 {
      var o := handle(lines[0]);
      assert Apply(st.(buffer := b), o) == Apply(st, o).(buffer := b);
      DispatchIgnoresBuffer(handle, Apply(st, o), b, lines[1..]);
    }
  }

  /** A buffer without a line feed holds no complete line and is left as it is. */
  lemma FramedAbsent(buffer: string)
    requires '\n' !in buffer
    ensures FramedLines(buffer) == [] && Leftover(buffer) == buffer
  {
    SplitAbsent(buffer, '\n');
  }

  /** A buffer that starts with a line feed starts with a blank line: nothing is handled, nothing is left. */
  lemma FramedAtBlank(buffer: string)
    requires '\n' in buffer && Find(buffer, '\n') == 0
    ensures FramedLines(buffer) == [] && Leftover(buffer) == ""
  {
    SplitAtFind(buffer, '\n');
    assert buffer[..0] == "";
  }

  /** A non-blank first line is handled first, then the rest of the buffer is framed alike. */
  lemma FramedAfterLine(buffer: string)
    requires '\n' in buffer && Find(buffer, '\n') > 0
    ensures var pos := Find(buffer, '\n');
      FramedLines(buffer) == [buffer[..pos]] + FramedLines(buffer[pos + 1..]) &&
      Leftover(buffer) == Leftover(buffer[pos + 1..])
  {
    var pos := Find(buffer, '\n');
    SplitAtFind(buffer, '\n');
    PiecesCons(buffer[..pos], Split(buffer[pos + 1..], '\n'));
  }

  /** One round of the framer loop on a non-blank line that does not panic. */
  lemma ParseFromStep(handle: string -> Outcome, st: State, line: string, rest: string)
    requires !st.halted && '\n' in st.buffer && Find(st.buffer, '\n') > 0
    requires line == st.buffer[..Find(st.buffer, '\n')] && rest == st.buffer[Find(st.buffer, '\n') + 1..]
    requires !handle(line).Panic?
    ensures ParseFrom(handle, st) == ParseFrom(handle, Apply(st, handle(line)).(buffer := rest))
  {
    assert TrimEndMatches(line, '\n') == line by {
      BeforeFind(st.buffer, '\n');
      TrimEndAbsent(line, '\n');
    }
  }

  /** One round of the framer loop on a non-blank line that panics: the process ends there. */
  lemma ParseFromPanic(handle: string -> Outcome, st: State, line: string)
    requires !st.halted && '\n' in st.buffer && Find(st.buffer, '\n') > 0
    requires line == st.buffer[..Find(st.buffer, '\n')] && handle(line).Panic?
    ensures ParseFrom(handle, st) == st.(halted := true)
  {
    assert TrimEndMatches(line, '\n') == line by {
      BeforeFind(st.buffer, '\n');
      TrimEndAbsent(line, '\n');
    }
  }

  /**
    `parse` hands every line-feed-terminated line to `handle_line` in order,
    without its line feed and with any carriage return kept, up to the first
    blank line or panic; it then leaves the text after the last line feed in
    the buffer, or clears the buffer at a blank line, dropping the lines
    after it.
   */
  lemma {:induction false} ParseFromFrames(handle: string -> Outcome, st: State)
    requires !st.halted
    ensures var r, d := ParseFrom(handle, st), Dispatch(handle, st, FramedLines(st.buffer));
      r.sent == d.sent && r.events == d.events && r.halted == d.halted
    ensures !ParseFrom(handle, st).halted ==> ParseFrom(handle, st).buffer == Leftover(st.buffer)
    decreases |st.buffer|
  {
    var buffer := st.buffer;
    if '\n' !in buffer {
      FramedAbsent(buffer);
    } else {
      var pos := Find(buffer, '\n');
      if pos == 0 {
        FramedAtBlank(buffer);
      } else {
        var rest := buffer[pos + 1..];
        var o := handle(buffer[..pos]);
        var d := Dispatch(handle, Apply(st, o), FramedLines(rest));
        DispatchFramedStep(handle, st, buffer[..pos], rest);
        if o.Panic? {
          ParseFromPanic(handle, st, buffer[..pos]);
        } else {
          var next := Apply(st, o).(buffer := rest);
          assert ParseFrom(handle, st) == ParseFrom(handle, next) by {
            ParseFromStep(handle, st, buffer[..pos], rest);
          }
          assert Dispatch(handle, next, FramedLines(rest)) == d.(buffer := rest) by {
            DispatchIgnoresBuffer(handle, Apply(st, o), rest, FramedLines(rest));
          }
          ParseFromFrames(handle, next);
        }
      }
    }
  }

  /** The reference framer hands on a non-blank first line, then frames the rest of the buffer. */
  lemma DispatchFramedStep(handle: string -> Outcome, st: State, line: string, rest: string)
    requires !st.halted && '\n' in st.buffer && Find(st.buffer, '\n') > 0
    requires line == st.buffer[..Find(st.buffer, '\n')] && rest == st.buffer[Find(st.buffer, '\n') + 1..]
    ensures Dispatch(handle, st, FramedLines(st.buffer)) == Dispatch(handle, Apply(st, handle(line)), FramedLines(rest))
    ensures Leftover(st.buffer) == Leftover(rest)
  {
    FramedAfterLine(st.buffer);
    assert ([line] + FramedLines(rest))[1..] == FramedLines(rest);
  }

  /**
    Without blank lines, every complete line is handled, in order, and the
    buffer keeps exactly the text after the last line feed; no handled line
    contains a line feed.
   */
  lemma NoBlankLines(buffer: string)
    requires var pieces := Split(buffer, '\n'); forall j :: 0 <= j < |pieces| - 1 ==> pieces[j] != ""
    ensures var pieces := Split(buffer, '\n');
      FramedLines(buffer) == pieces[..|pieces| - 1] && Leftover(buffer) == pieces[|pieces| - 1]
    ensures forall j :: 0 <= j < |FramedLines(buffer)| ==> '\n' !in FramedLines(buffer)[j]
    ensures '\n' !in Leftover(buffer)
    ensures Join(FramedLines(buffer) + [Leftover(buffer)], '\n') == buffer
  {
    var pieces := Split(buffer, '\n');
    assert FramedLines(buffer) + [Leftover(buffer)] == pieces;
    JoinSplit(buffer, '\n');
  }

  /** Handling two runs of lines one after the other is handling them as one run. */
  lemma {:induction false} DispatchAppend(handle: string -> Outcome, st: State, l1: seq<string>, l2: seq<string>)
    ensures Dispatch(handle, st, l1 + l2) == Dispatch(handle, Dispatch(handle, st, l1), l2)
    decreases |l1|
  {
    if !st.halted {
      if |l1| == 0 {
        assert l1 + l2 == l2;
      } else {
        assert (l1 + l2)[0] == l1[0] && (l1 + l2)[1..] == l1[1..] + l2;
        DispatchAppend(handle, Apply(st, handle(l1[0])), l1[1..], l2);
      }
    }
  }

  /**
    Framing a buffer without blank lines: the logs are those of handling
    every complete piece `lines` in order, and the buffer keeps the last
    piece `rest`.
   */
  lemma ParseWithoutBlanks(handle: string -> Outcome, st: State, lines: seq<string>, rest: string)
    requires !st.halted && NoBlankPiece(Split(st.buffer, '\n'))
    requires Split(st.buffer, '\n') == lines + [rest]
    ensures SameLogs(ParseFrom(handle, st), Dispatch(handle, st, lines))
    ensures !ParseFrom(handle, st).halted ==> ParseFrom(handle, st).buffer == rest
  {
    ParseFromFrames(handle, st);
    NoBlankLines(st.buffer);
    var p := Split(st.buffer, '\n');
    assert p[..|p| - 1] == lines;
  }

  /** Two states that agree on everything but the buffer. */
  predicate SameLogs(s: State, t: State)
  {
    s.sent == t.sent && s.events == t.events && s.halted == t.halted
  }

  /** No complete piece is empty: only the last piece, the partial line, may be. */
  predicate NoBlankPiece(pieces: seq<string>)
  {
    forall j :: 0 <= j < |pieces| - 1 ==> pieces[j] != ""
  }

  /** The pieces of a grown buffer: the complete pieces of the old one, then those of its grown partial line. */
  lemma PiecesAppend(p: seq<string>, q: seq<string>, m: seq<string>)
    requires |q| >= 1 && |m| >= 1 && p == q[..|q| - 1] + m && NoBlankPiece(p)
    ensures NoBlankPiece(q) && NoBlankPiece(m)
    ensures p == q[..|q| - 1] + m[..|m| - 1] + [m[|m| - 1]]
    ensures q == q[..|q| - 1] + [q[|q| - 1]] && m == m[..|m| - 1] + [m[|m| - 1]]
  {
    forall j | 0 <= j < |q| - 1 ensures q[j] != "" {
      assert q[j] == p[j];
    }
    forall j | 0 <= j < |m| - 1 ensures m[j] != "" {
      assert m[j] == p[|q| - 1 + j];
    }
    assert m == m[..|m| - 1] + [m[|m| - 1]];
  }

  /**
    A line split across two reads is carried in the buffer and handled
    once it is complete: as long as no blank line cuts the framing short,
    receiving `a` and then `b` sends, prints and panics exactly as
    receiving `a + b` at once, and leaves the same partial line behind.
   */
  lemma PartialLineCarried(handle: string -> Outcome, st: State, a: string, b: string)
    requires !st.halted
    requires NoBlankPiece(Split(st.buffer + a + b, '\n'))
    ensures SameLogs(Deliver(handle, st, a + b), Deliver(handle, Deliver(handle, st, a), b))
    ensures !Deliver(handle, st, a + b).halted ==>
      Deliver(handle, st, a + b).buffer == Deliver(handle, Deliver(handle, st, a), b).buffer
  {
    var x := st.buffer + a;
    AppendAssoc(st.buffer, a, b);
    var q := Split(x, '\n');
    var y := q[|q| - 1] + b;
    var m := Split(y, '\n');
    var full := st.(buffer := x + b);
    var l1, l2 := q[..|q| - 1], m[..|m| - 1];
    SplitGrown(x, b, Split(x + b, '\n'), q, m);
    WholeRead(handle, full, l1, l2, m[|m| - 1]);
    var first := Deliver(handle, st, a);
    FirstRead(handle, st.(buffer := x), x + b, l1, q[|q| - 1]);
    if !first.halted {
      SecondRead(handle, first, Dispatch(handle, full, l1), y, l2, m[|m| - 1]);
    }
    ComposeReads(handle, full, l1, l2, Deliver(handle, st, a + b), first, Deliver(handle, first, b), m[|m| - 1]);
  }

  lemma AppendAssoc<T>(s: seq<T>, a: seq<T>, b: seq<T>)
    ensures s + (a + b) == s + a + b
  {
  }

  /** The pieces of a buffer grown by `b`, when the grown buffer has no blank line. */
  lemma SplitGrown(x: string, b: string, p: seq<string>, q: seq<string>, m: seq<string>)
    requires p == Split(x + b, '\n') && q == Split(x, '\n') && m == Split(q[|q| - 1] + b, '\n')
    requires NoBlankPiece(p)
    ensures NoBlankPiece(q) && NoBlankPiece(m)
    ensures p == q[..|q| - 1] + m[..|m| - 1] + [m[|m| - 1]]
    ensures q == q[..|q| - 1] + [q[|q| - 1]] && m == m[..|m| - 1] + [m[|m| - 1]]
  {
    SplitAppend(x, b, '\n', q);
    PiecesAppend(p, q, m);
  }

  /** How the three framings of `PartialLineCarried` fit together, on the reference framer. */
  lemma ComposeReads(handle: string -> Outcome, full: State, l1: seq<string>, l2: seq<string>,
                     once: State, first: State, twice: State, rest: string)
    requires SameLogs(once, Dispatch(handle, full, l1 + l2)) && (!once.halted ==> once.buffer == rest)
    requires SameLogs(first, Dispatch(handle, full, l1))
    requires first.halted ==> twice == first
    requires !first.halted ==>
      SameLogs(twice, Dispatch(handle, Dispatch(handle, full, l1), l2)) && (!twice.halted ==> twice.buffer == rest)
    ensures SameLogs(once, twice) && (!once.halted ==> once.buffer == twice.buffer)
  {
    var d1 := Dispatch(handle, full, l1);
    DispatchAppend(handle, full, l1, l2);
    if first.halted {
      assert Dispatch(handle, d1, l2) == d1;
    }
  }

  /** Receiving both parts at once: the complete pieces of both are handled in one run. */
  lemma WholeRead(handle: string -> Outcome, full: State, l1: seq<string>, l2: seq<string>, rest: string)
    requires !full.halted && NoBlankPiece(Split(full.buffer, '\n'))
    requires Split(full.buffer, '\n') == l1 + l2 + [rest]
    ensures SameLogs(ParseFrom(handle, full), Dispatch(handle, full, l1 + l2))
    ensures !ParseFrom(handle, full).halted ==> ParseFrom(handle, full).buffer == rest
  {
    ParseWithoutBlanks(handle, full, l1 + l2, rest);
  }

  /** The first read handles the complete pieces of the first part, whatever follows in the buffer later. */
  lemma FirstRead(handle: string -> Outcome, st: State, later: string, lines: seq<string>, rest: string)
    requires !st.halted && NoBlankPiece(Split(st.buffer, '\n'))
    requires Split(st.buffer, '\n') == lines + [rest]
    ensures SameLogs(ParseFrom(handle, st), Dispatch(handle, st.(buffer := later), lines))
    ensures !ParseFrom(handle, st).halted ==> ParseFrom(handle, st).buffer == rest
  {
    ParseWithoutBlanks(handle, st, lines, rest);
    DispatchIgnoresBuffer(handle, st, later, lines);
  }

  /** The second read frames the grown partial line on top of what the first read left. */
  lemma SecondRead(handle: string -> Outcome, first: State, d1: State, y: string, lines: seq<string>, rest: string)
    requires !first.halted && SameLogs(first, d1)
    requires NoBlankPiece(Split(y, '\n')) && Split(y, '\n') == lines + [rest]
    ensures SameLogs(ParseFrom(handle, first.(buffer := y)), Dispatch(handle, d1, lines))
    ensures !ParseFrom(handle, first.(buffer := y)).halted ==> ParseFrom(handle, first.(buffer := y)).buffer == rest
  {
    ParseWithoutBlanks(handle, first.(buffer := y), lines, rest);
    DispatchIgnoresBuffer(handle, d1, y, lines);
    assert first.(buffer := y) == d1.(buffer := y);
  }

  /** A single line received whole into an empty buffer is handled once, and nothing is left over. */
  lemma DeliverOneLine(handle: string -> Outcome, st: State, line: string)
    requires !st.halted && st.buffer == "" && '\n' !in line && line != ""
    requires !handle(line).Panic?
    ensures Deliver(handle, st, line + "\n") == Apply(st, handle(line))
  {
    assert st.buffer + (line + "\n") == line + "\n";
    ParseOneLine(handle, st.(buffer := line + "\n"), line);
  }

  /** A buffer holding exactly one non-blank line: it is handled and the buffer is emptied. */
  lemma ParseOneLine(handle: string -> Outcome, st: State, line: string)
    requires !st.halted && st.buffer == line + "\n" && '\n' !in line && line != ""
    requires !handle(line).Panic?
    ensures ParseFrom(handle, st) == Apply(st, handle(line)).(buffer := "")
  {
    assert st.buffer == line + ['\n'] + "";
    FindAfterPrefix(line, '\n', "");
    ParseFromStep(handle, st, line, "");
  }

  /** A single line that panics ends the process with nothing more sent or printed. */
  lemma DeliverPanicLine(handle: string -> Outcome, st: State, line: string)
    requires !st.halted && st.buffer == "" && '\n' !in line && line != ""
    requires handle(line).Panic?
    ensures Deliver(handle, st, line + "\n") == st.(buffer := line + "\n", halted := true)
  {
    var buffer := line + "\n";
    assert st.buffer + buffer == buffer && buffer == line + ['\n'] + "";
    FindAfterPrefix(line, '\n', "");
    ParseFromPanic(handle, st.(buffer := buffer), line);
  }

  /** A PING line received whole is answered with exactly one framed PONG line and prints nothing. */
  lemma PingRoundTrip(st: State, line: string)
    requires !st.halted && st.buffer == "" && '\n' !in line && StartsWith(line, "PING")
    ensures Deliver(HandleLine, st, line + "\n") == st.(sent := st.sent + [Frame(ReplaceAll(line, "PING", "PONG"))])
  {
    DeliverOneLine(HandleLine, st, line);
    PingReply(line);
  }

  /** A carriage return before the line feed stays part of the line handed on. */
  lemma CarriageReturnKept(line: string, tail: string)
    requires '\n' !in line && '\n' !in tail
    ensures FramedLines(line + "\r\n" + tail) == [line + "\r"] && Leftover(line + "\r\n" + tail) == tail
  {
    var a := line + "\r";
    assert '\n' !in a;
    assert line + "\r\n" + tail == a + ['\n'] + tail;
    FindAfterPrefix(a, '\n', tail);
    FramedAfterLine(a + ['\n'] + tail);
    FramedAbsent(tail);
  }

  /** A blank line right after a line ends the framing: the lines after it are never handled. */
  lemma BlankLineDropsRest(line: string, tail: string)
    requires '\n' !in line && line != ""
    ensures FramedLines(line + "\n\n" + tail) == [line] && Leftover(line + "\n\n" + tail) == ""
  {
    var rest := "\n" + tail;
    assert line + "\n\n" + tail == line + ['\n'] + rest;
    FindAfterPrefix(line, '\n', rest);
    FramedAfterLine(line + ['\n'] + rest);
    assert Find(rest, '\n') == 0;
    FramedAtBlank(rest);
  }

  /** A read holding a line and then a blank line handles that line only and leaves the buffer empty. */
  lemma DeliverLineThenBlank(handle: string -> Outcome, st: State, a: string, tail: string)
    requires !st.halted && st.buffer == ""
    requires '\n' !in a && a != "" && !handle(a).Panic?
    ensures Deliver(handle, st, a + "\n\n" + tail) == Apply(st, handle(a))
  {
    var whole := a + "\n\n" + tail;
    var start := st.(buffer := whole);
    var o := handle(a);
    assert Deliver(handle, st, whole) == ParseFrom(handle, start) by {
      assert st.buffer + whole == whole;
    }
    var r := ParseFrom(handle, start);
    assert r.sent == Apply(st, o).sent && r.events == Apply(st, o).events && !r.halted && r.buffer == "" by {
      BlankLineDropsRest(a, tail);
      ParseFromFrames(handle, start);
      assert Dispatch(handle, start, [a]) == Apply(start, o) by {
        assert [a][1..] == [];
      }
    }
    assert r == State(r.buffer, r.sent, r.events, r.halted);
  }

  /**
    Because of that, how the stream is cut into reads matters: a line after a
    blank line is handled when it arrives in a later read, and dropped when it
    arrives in the same one.
   */
  lemma ReadBoundaryMatters(handle: string -> Outcome, st: State, a: string, b: string)
    requires !st.halted && st.buffer == ""
    requires '\n' !in a && a != "" && !handle(a).Panic?
    requires '\n' !in b && b != "" && !handle(b).Panic?
    ensures Deliver(handle, st, a + "\n\n" + b + "\n") == Apply(st, handle(a))
    ensures Deliver(handle, Deliver(handle, st, a + "\n\n"), b + "\n") == Apply(Apply(st, handle(a)), handle(b))
  {
    assert a + "\n\n" + b + "\n" == a + "\n\n" + (b + "\n");
    DeliverLineThenBlank(handle, st, a, b + "\n");
    assert a + "\n\n" == a + "\n\n" + "";
    DeliverLineThenBlank(handle, st, a, "");
    DeliverOneLine(handle, Apply(st, handle(a)), b);
  }

  // ---------------------------------------------------------------------
  // The bot as an object
  // ---------------------------------------------------------------------

  /** The bot's mutable state: the read buffer and what it has sent and printed. */
  class Bot {
    var buffer: string
    var sent: seq<string>
    var events: seq<Event>
    var halted: bool

    function Abstract(): State
      reads this
    {
      State(buffer, sent, events, halted)
    }

    /** `main` after a successful connect: NICK, USER, then "Connected!". */
    constructor Connect()
      ensures buffer == "" && !halted && events == [Connected]
      ensures sent == [Frame("NICK " + Nickname), Frame("USER " + Nickname + " 0 * :RustBot")]
    {
      buffer := "";
      sent := [];
      events := [];
      halted := false;
      new;
      Send("NICK " + Nickname);
      Send("USER " + Nickname + " 0 * :RustBot");
      PrintAll(Connected);
    }

    /** `send`: one framed line written to the server. */
    method Send(text: string)
      modifies this
      ensures sent == old(sent) + [Frame(text)]
      ensures buffer == old(buffer) && events == old(events) && halted == old(halted)
    {
      sent := sent + [Frame(text)];
    }

    /** `printall`: one event printed. */
    method PrintAll(e: Event)
      modifies this
      ensures events == old(events) + [e]
      ensures buffer == old(buffer) && sent == old(sent) && halted == old(halted)
    {
      events := events + [e];
    }

    /** `handle_line` with its effects on the two logs. */
    method Handle(line: string)
      modifies this
      ensures Abstract() == Apply(old(Abstract()), HandleLine(line))
    {
      match HandleLine(line)
      case Silent =>
      case Emit(e) => PrintAll(e);
      case Send(text) => Send(text);
      case Panic => halted := true;
    }

    /** `parse`: drain the complete lines from the buffer, in place. */
    method Parse()
      requires !halted
      modifies this
      ensures Abstract() == ParseFrom(HandleLine, old(Abstract()))
      ensures !halted ==> '\n' !in buffer
    {
      var pos := Find(buffer, '\n');
      while pos < |buffer|
        invariant !halted
        invariant pos == Find(buffer, '\n')
        invariant ParseFrom(HandleLine, Abstract()) == ParseFrom(HandleLine, old(Abstract()))
        decreases |buffer|
      {
        var line := TrimEndMatches(buffer[..pos], '\n');
        if |line| == 0 {
          buffer := "";
          break;
        }
        Handle(line);
        if halted {
          break;
        }
        buffer := buffer[pos + 1..];
        pos := Find(buffer, '\n');
      }
    }

    /** One chunk read from the socket: appended to the buffer, then parsed. */
    method Receive(chunk: string)
      modifies this
      ensures Abstract() == Deliver(HandleLine, old(Abstract()), chunk)
    {
      if !halted {
        buffer := buffer + chunk;
        Parse();
      }
    }
  }
}
