/**
  The dispatcher `handle_line` and the per-command handlers `on_*` of the bot.

  Every handler looks at one protocol line, split on single spaces exactly as
  `line.split(' ')` does, and has one of four outcomes: it prints one event,
  it sends one line to the server, it does nothing, or it panics on an index
  or slice out of bounds.
 */
module Handlers {
  import opened Optional
  import opened Strings
  import opened Numbers

  /** The configuration constants of the bot. */
  const ServerAddress: string := "irc.koach.com:6667"
  const Nickname: string := "RustyTewl"
  const Channel: string := "#KoachsWorkShop"

  /** The command names `handle_line` matches on, case-sensitively. */
  const KnownCommands: set<string> := {"JOIN", "PART", "PRIVMSG", "QUIT", "NOTICE", "MODE", "KICK", "NICK"}

  /** One `printall` call, as the information it displays. */
  datatype Event =
    | Connected
    | Joined(sender: string, channel: string)
    | Parted(sender: string, channel: string)
    | NickChanged(sender: string, newNick: string)
    | ChannelMessage(sender: string, message: string)
    | Query(sender: string, message: string)
    | Quit(sender: string, message: string)
    | ChannelNotice(sender: string, message: string)
    | PrivateNotice(sender: string, message: string)
    | ModeChange(line: string)
    | Kicked(sender: string, target: string, channel: string, message: string)
    | OtherEvent(line: string)

  /** What handling one line does: print one event, send one line, nothing, or panic. */
  datatype Outcome = Silent | Emit(event: Event) | Send(text: string) | Panic

  /** The colour names `printall` knows; any other name prints the text uncoloured. */
  const Colours: set<string> := {"yellow", "red", "green", "purple", "blue", "cyan", "magenta", "brightblue", "brightgreen", "brightred", "brightcyan"}

  /** The colour name and the text that `printall` is given for an event. */
  function Render(e: Event): (r: (string, string))
    ensures r.0 in Colours <==> !e.OtherEvent?
  {
    match e
    case Connected => ("yellow", "Connected!")
    case Joined(s, c) => ("green", s + " has joined " + c)
    case Parted(s, c) => ("green", s + " has left " + c)
    case NickChanged(s, n) => ("magenta", s + " has has changed their nick to: " + n)
    case ChannelMessage(s, m) => ("cyan", s + ": " + m)
    case Query(s, m) => ("blue", "QUERY(" + s + "): " + m)
    case Quit(s, m) => ("brightcyan", s + " has quit: " + m)
    case ChannelNotice(s, m) => ("purple", "CNOTICE(" + s + "): " + m)
    case PrivateNotice(s, m) => ("brightgreen", "PNOTICE(" + s + "): " + m)
    case ModeChange(l) => ("brightcyan", "Mode change: " + l)
    case Kicked(s, t, c, m) => ("red", s + " has kicked " + t + " from " + c + " :" + m)
    case OtherEvent(l) => ("white", "Other event: " + l)
  }

  /** The printed text of an event ends with the line or the message it carries. */
  lemma RenderShows(e: Event)
    ensures var text := Render(e).1;
      e.ModeChange? || e.OtherEvent? ==> |e.line| <= |text| && text[|text| - |e.line|..] == e.line
    ensures var text := Render(e).1;
      e.ChannelMessage? || e.Query? || e.Quit? || e.ChannelNotice? || e.PrivateNotice? || e.Kicked? ==>
      |e.message| <= |text| && text[|text| - |e.message|..] == e.message
  {
  }

  /** `send` writes its text followed by a line feed. */
  function Frame(text: string): (wire: string)
    ensures |wire| == |text| + 1 && wire[..|text|] == text && wire[|text|] == '\n'
  {
    text + "\n"
  }

  /** `line.split(' ').collect()`. */
  function Tokens(line: string): seq<string>
  {
    Split(line, ' ')
  }

  /**
    `&s[1..]` on a Rust `str`: byte index 1 must be in range and on a
    character boundary, which holds exactly when `s` is non-empty and its
    first character takes one byte in UTF-8 (is ASCII); otherwise it panics.
   */
  function DropFirst(s: string): (r: Option<string>)
    ensures r.Some? <==> |s| > 0 && s[0] as int < 0x80
    ensures r.Some? ==> [s[0]] + r.value == s
  {
    if |s| > 0 && s[0] as int < 0x80 then Some(s[1..]) else None
  }

  /**
    `&parts[0].split('!').next().unwrap()[1..]`: the first token up to its
    first `!`, without its first character; `None` where the slice panics.
   */
  function SenderOf(first: string): (r: Option<string>)
    ensures r.Some? <==> 0 < Find(first, '!') && first[0] as int < 0x80
    ensures r.Some? ==> r.value == first[1..Find(first, '!')]
  {
    FirstPiece(first, '!');
    DropFirst(Split(first, '!')[0])
  }

  /** `message_parts.join(" ")` followed by `trim_start_matches(':')`. */
  function MessageFrom(parts: seq<string>, n: nat): string
    requires n <= |parts|
  {
    TrimStartMatches(Join(parts[n..], ' '), ':')
  }

  /** `on_numeric`: only the welcome numeric 001 does something, sending `JOIN <CHANNEL>`. */
  function OnNumeric(numeric: U16, line: string): (r: Outcome)
    ensures r.Send? <==> numeric == 1
    ensures r == Silent || r == Send("JOIN " + Channel)
  {
    Pad3IsWelcome(numeric);
    if Pad3(numeric) == "001" then Send("JOIN " + Channel) else Silent
  }

  /** `on_join`: `parts[2]` is indexed without a length check. */
  function OnJoin(line: string): (r: Outcome)
    ensures !r.Send? && (r.Emit? ==> r.event.Joined?)
  {
    var parts := Tokens(line);
    match SenderOf(parts[0])
    case None => Panic
    case Some(sender) =>
      if |parts| < 3 then Panic
      else match DropFirst(parts[2])
        case None => Panic
        case Some(channel) => Emit(Joined(sender, channel))
  }

  /** `on_part`: like `on_join`, `parts[2]` is indexed without a length check. */
  function OnPart(line: string): (r: Outcome)
    ensures !r.Send? && (r.Emit? ==> r.event.Parted?)
  {
    var parts := Tokens(line);
    match SenderOf(parts[0])
    case None => Panic
    case Some(sender) =>
      if |parts| < 3 then Panic
      else match DropFirst(parts[2])
        case None => Panic
        case Some(channel) => Emit(Parted(sender, channel))
  }

  /** `on_nick`: the new nick is `parts[2]` without its first character, unchecked. */
  function OnNick(line: string): (r: Outcome)
    ensures !r.Send? && (r.Emit? ==> r.event.NickChanged?)
  {
    var parts := Tokens(line);
    match SenderOf(parts[0])
    case None => Panic
    case Some(sender) =>
      if |parts| < 3 then Panic
      else match DropFirst(parts[2])
        case None => Panic
        case Some(newNick) => Emit(NickChanged(sender, newNick))
  }

  /** `on_privmsg`: needs four tokens; a message to `CHANNEL` is a channel message, anything else a query. */
  function OnPrivmsg(line: string): (r: Outcome)
    ensures !r.Send? && (r.Emit? ==> r.event.ChannelMessage? || r.event.Query?)
  {
    var parts := Tokens(line);
    if |parts| < 4 then Silent
    else match SenderOf(parts[0])
      case None => Panic
      case Some(sender) =>
        var message := MessageFrom(parts, 3);
        if parts[2] == Channel then Emit(ChannelMessage(sender, message))
        else Emit(Query(sender, message))
  }

  /** `on_quit`: needs three tokens; the reason is everything after the second space. */
  function OnQuit(line: string): (r: Outcome)
    ensures !r.Send? && (r.Emit? ==> r.event.Quit?)
  {
    var parts := Tokens(line);
    if |parts| < 3 then Silent
    else match SenderOf(parts[0])
      case None => Panic
      case Some(sender) => Emit(Quit(sender, MessageFrom(parts, 2)))
  }

  /** `on_notice`: the guard `len >= 3` does not cover the access to `parts[3]`. */
  function OnNotice(line: string): (r: Outcome)
    ensures !r.Send? && (r.Emit? ==> r.event.ChannelNotice? || r.event.PrivateNotice?)
  {
    var parts := Tokens(line);
    if |parts| < 3 then Silent
    else if |parts| < 4 then Panic
    else if !StartsWith(parts[3], ":") then Silent
    else match SenderOf(parts[0])
      case None => Panic
      case Some(sender) =>
        var message := MessageFrom(parts, 3);
        if parts[2] == Channel then Emit(ChannelNotice(sender, message))
        else Emit(PrivateNotice(sender, message))
  }

  /** `on_mode`: prints the whole line. */
  function OnMode(line: string): Outcome
  {
    Emit(ModeChange(line))
  }

  /** `on_kick`: the guard `len >= 4` does not cover the access to `parts[4]`. */
  function OnKick(line: string): (r: Outcome)
    ensures !r.Send? && (r.Emit? ==> r.event.Kicked?)
  {
    var parts := Tokens(line);
    if |parts| < 4 then Silent
    else if |parts| < 5 then Panic
    else if !StartsWith(parts[4], ":") then Silent
    else match SenderOf(parts[0])
      case None => Panic
      case Some(sender) => Emit(Kicked(sender, parts[3], parts[2], MessageFrom(parts, 4)))
  }

  /** `on_other`: prints the whole line. */
  function OnOther(line: string): Outcome
  {
    Emit(OtherEvent(line))
  }

  /** `handle_line`: answer PING, otherwise route on the second token. */
  function HandleLine(line: string): Outcome
  {
    if StartsWith(line, "PING") then Send(ReplaceAll(line, "PING", "PONG"))
    else
      var parts := Tokens(line);
      if |parts| < 2 then Silent else Route(parts[1], line)
  }

  /** The `if`/`else if` chain of `handle_line` on the command token. */
  function Route(command: string, line: string): Outcome
  {
    if command == "JOIN" then OnJoin(line)
    else if command == "PART" then OnPart(line)
    else if command == "PRIVMSG" then OnPrivmsg(line)
    else if command == "QUIT" then OnQuit(line)
    else if command == "NOTICE" then OnNotice(line)
    else if command == "MODE" then OnMode(line)
    else if command == "KICK" then OnKick(line)
    else if command == "NICK" then OnNick(line)
    else match ParseU16(command)
      case Some(numeric) => OnNumeric(numeric, line)
      case None => OnOther(line)
  }

  // ---------------------------------------------------------------------
  // Properties of the dispatcher
  // ---------------------------------------------------------------------

  /** A line that is routed past the PING check with second token `command`. */
  predicate RoutedOn(line: string, command: string)
  {
    !StartsWith(line, "PING") && |Tokens(line)| >= 2 && Tokens(line)[1] == command
  }

  /**
    PING answer: one send of the line with every "PING" turned into "PONG"
    (so no "PING" is left and the length is kept; on the wire, one more for
    the line feed), and no event.
   */
  lemma PingReply(line: string)
    requires StartsWith(line, "PING")
    ensures HandleLine(line) == Send(ReplaceAll(line, "PING", "PONG"))
    ensures var pong := HandleLine(line).text;
      |Frame(pong)| == |line| + 1 && StartsWith(pong, "PONG") && !Contains(pong, "PING")
    ensures !Contains(line[4..], "PING") ==> HandleLine(line).text == "PONG" + line[4..]
  {
    var pong := ReplaceAll(line, "PING", "PONG");
    PongLeavesNoPing(line);
    assert pong == "PONG" + ReplaceAll(line[4..], "PING", "PONG");
    assert pong[..4] == "PONG";
    if !Contains(line[4..], "PING") {
      ReplaceAbsent(line[4..], "PING", "PONG");
    }
  }

  /** A line without a space is a single token: it is not dispatched at all. */
  lemma OneTokenIsSilent(line: string)
    requires !StartsWith(line, "PING") && ' ' !in line
    ensures HandleLine(line) == Silent
  {
    assert |Tokens(line)| == 1;
  }

  /** A numeric command: only the value 1, however spelled, answers with `JOIN <CHANNEL>`; any other is silent. */
  lemma NumericHandling(line: string, n: U16)
    requires !StartsWith(line, "PING") && |Tokens(line)| >= 2
    requires Tokens(line)[1] !in KnownCommands && ParseU16(Tokens(line)[1]) == Some(n)
    ensures HandleLine(line) == if n == 1 then Send("JOIN " + Channel) else Silent
  {
    var command := Tokens(line)[1];
    assert Route(command, line) == OnNumeric(n, line) by {
      assert command != "JOIN" && command != "PART" && command != "PRIVMSG" && command != "QUIT";
      assert command != "NOTICE" && command != "MODE" && command != "KICK" && command != "NICK";
    }
  }

  /** Any other second token (neither a known command nor a `u16`) is shown as an "Other event" carrying the whole line. */
  lemma UnknownIsOther(line: string)
    requires !StartsWith(line, "PING") && |Tokens(line)| >= 2
    requires Tokens(line)[1] !in KnownCommands && ParseU16(Tokens(line)[1]).None?
    ensures HandleLine(line) == Emit(OtherEvent(line))
  {
  }

  /** The welcome numeric: routed to the numeric handler with the value 1. */
  predicate IsWelcome(line: string)
  {
    !StartsWith(line, "PING") && |Tokens(line)| >= 2 &&
    Tokens(line)[1] !in KnownCommands && ParseU16(Tokens(line)[1]) == Some(1)
  }

  /** Apart from the PING answer and the JOIN after the welcome numeric, no line makes the bot write to the server. */
  lemma SendsOnlyPongOrJoin(line: string)
    ensures HandleLine(line).Send? <==> StartsWith(line, "PING") || IsWelcome(line)
    ensures HandleLine(line).Send? && !StartsWith(line, "PING") ==> HandleLine(line).text == "JOIN " + Channel
  {
    if !StartsWith(line, "PING") && |Tokens(line)| >= 2 {
      RouteOutcome(Tokens(line)[1], line);
    }
  }

  /** Which command token each kind of event comes from. */
  predicate FromCommand(e: Event, command: string)
  {
    match e
    case Connected => false
    case Joined(_, _) => command == "JOIN"
    case Parted(_, _) => command == "PART"
    case NickChanged(_, _) => command == "NICK"
    case ChannelMessage(_, _) => command == "PRIVMSG"
    case Query(_, _) => command == "PRIVMSG"
    case Quit(_, _) => command == "QUIT"
    case ChannelNotice(_, _) => command == "NOTICE"
    case PrivateNotice(_, _) => command == "NOTICE"
    case ModeChange(_) => command == "MODE"
    case Kicked(_, _, _, _) => command == "KICK"
    case OtherEvent(_) => command !in KnownCommands && ParseU16(command).None?
  }

  /** What each command can lead to: only a numeric 1 sends, and every event comes from the handler its command names. */
  lemma RouteOutcome(command: string, line: string)
    ensures Route(command, line).Send? <==> command !in KnownCommands && ParseU16(command) == Some(1)
    ensures Route(command, line).Send? ==> Route(command, line).text == "JOIN " + Channel
    ensures Route(command, line).Emit? ==> FromCommand(Route(command, line).event, command)
  {
  }

  /** Routing depends only on the second token: every event comes from the handler its command names. */
  lemma EventMatchesCommand(line: string)
    requires HandleLine(line).Emit?
    ensures !StartsWith(line, "PING") && |Tokens(line)| >= 2
    ensures FromCommand(HandleLine(line).event, Tokens(line)[1])
  {
    RouteOutcome(Tokens(line)[1], line);
  }

  /**
    JOIN: the sender and the third token without its first character;
    `parts[2]` and both `[1..]` slices are unchecked, so a line of two tokens,
    or an empty or non-ASCII-led first or third token, panics.
   */
  lemma JoinHandling(line: string)
    requires RoutedOn(line, "JOIN")
    ensures var parts := Tokens(line);
      HandleLine(line) ==
        if SenderOf(parts[0]).None? || Count(line, ' ') < 2 || DropFirst(parts[2]).None? then Panic
        else Emit(Joined(SenderOf(parts[0]).value, parts[2][1..]))
  {
    assert HandleLine(line) == OnJoin(line);
  }

  /** PART: as JOIN, with the same unchecked index and slices. */
  lemma PartHandling(line: string)
    requires RoutedOn(line, "PART")
    ensures var parts := Tokens(line);
      HandleLine(line) ==
        if SenderOf(parts[0]).None? || Count(line, ' ') < 2 || DropFirst(parts[2]).None? then Panic
        else Emit(Parted(SenderOf(parts[0]).value, parts[2][1..]))
  {
    assert HandleLine(line) == OnPart(line);
  }

  /** NICK: the new nick is the third token without its first character, with the same unchecked index and slices. */
  lemma NickHandling(line: string)
    requires RoutedOn(line, "NICK")
    ensures var parts := Tokens(line);
      HandleLine(line) ==
        if SenderOf(parts[0]).None? || Count(line, ' ') < 2 || DropFirst(parts[2]).None? then Panic
        else Emit(NickChanged(SenderOf(parts[0]).value, parts[2][1..]))
  {
    var nick := "NICK";
    assert nick != "JOIN" && nick != "PART" && nick != "QUIT" && nick != "MODE" && nick != "KICK" by {
      assert nick[0] == 'N' && nick[1] == 'I';
    }
    assert Route(nick, line) == OnNick(line);
  }

  /**
    PRIVMSG: silent below four tokens (three spaces); otherwise the message is
    the text after the third space, leading colons removed, shown as a channel
    message exactly when the target is `CHANNEL`.
   */
  lemma PrivmsgHandling(line: string)
    requires RoutedOn(line, "PRIVMSG")
    ensures Count(line, ' ') < 3 ==> HandleLine(line) == Silent
    ensures Count(line, ' ') >= 3 ==>
      var parts := Tokens(line);
      var message := TrimStartMatches(AfterSep(line, ' ', 3), ':');
      HandleLine(line) ==
        match SenderOf(parts[0])
        case None => Panic
        case Some(s) => Emit(if parts[2] == Channel then ChannelMessage(s, message) else Query(s, message))
  {
    assert HandleLine(line) == OnPrivmsg(line);
    if Count(line, ' ') >= 3 {
      JoinSplitSuffix(line, ' ', 3);
    }
  }

  /** QUIT: silent below three tokens; otherwise the reason is the text after the second space, leading colons removed. */
  lemma QuitHandling(line: string)
    requires RoutedOn(line, "QUIT")
    ensures Count(line, ' ') < 2 ==> HandleLine(line) == Silent
    ensures Count(line, ' ') >= 2 ==>
      HandleLine(line) ==
        match SenderOf(Tokens(line)[0])
        case None => Panic
        case Some(s) => Emit(Quit(s, TrimStartMatches(AfterSep(line, ' ', 2), ':')))
  {
    assert HandleLine(line) == OnQuit(line);
    if Count(line, ' ') >= 2 {
      JoinSplitSuffix(line, ' ', 2);
    }
  }

  /**
    NOTICE: silent below three tokens; exactly three tokens index `parts[3]`
    out of bounds and panic; with more, it is shown only when the fourth token
    starts with a colon, as a channel notice exactly when the target is `CHANNEL`.
   */
  lemma NoticeHandling(line: string)
    requires RoutedOn(line, "NOTICE")
    ensures Count(line, ' ') < 2 ==> HandleLine(line) == Silent
    ensures Count(line, ' ') == 2 ==> HandleLine(line) == Panic
    ensures Count(line, ' ') >= 3 ==>
      var parts := Tokens(line);
      var message := TrimStartMatches(AfterSep(line, ' ', 3), ':');
      HandleLine(line) ==
        if !StartsWith(parts[3], ":") then Silent
        else match SenderOf(parts[0])
          case None => Panic
          case Some(s) => Emit(if parts[2] == Channel then ChannelNotice(s, message) else PrivateNotice(s, message))
  {
    assert HandleLine(line) == OnNotice(line);
    if Count(line, ' ') >= 3 {
      JoinSplitSuffix(line, ' ', 3);
    }
  }

  /**
    KICK: silent below four tokens; exactly four tokens index `parts[4]` out
    of bounds and panic; with more, it is shown only when the fifth token
    starts with a colon, with channel `parts[2]`, kicked nick `parts[3]` and
    the text after the fourth space as the reason.
   */
  lemma KickHandling(line: string)
    requires RoutedOn(line, "KICK")
    ensures Count(line, ' ') < 3 ==> HandleLine(line) == Silent
    ensures Count(line, ' ') == 3 ==> HandleLine(line) == Panic
    ensures Count(line, ' ') >= 4 ==>
      var parts := Tokens(line);
      HandleLine(line) ==
        if !StartsWith(parts[4], ":") then Silent
        else match SenderOf(parts[0])
          case None => Panic
          case Some(s) => Emit(Kicked(s, parts[3], parts[2], TrimStartMatches(AfterSep(line, ' ', 4), ':')))
  {
    assert HandleLine(line) == OnKick(line) by {
      var kick := "KICK";
      assert kick != "JOIN" && kick != "PART" && kick != "PRIVMSG" && kick != "QUIT" && kick != "NOTICE" && kick != "MODE" by {
        assert kick[0] == 'K';
      }
      assert Route(kick, line) == OnKick(line);
    }
    if Count(line, ' ') >= 4 {
      JoinSplitSuffix(line, ' ', 4);
    }
  }

  /** MODE: always shown, with the whole line. */
  lemma ModeHandling(line: string)
    requires RoutedOn(line, "MODE")
    ensures HandleLine(line) == Emit(ModeChange(line))
  {
  }
}
