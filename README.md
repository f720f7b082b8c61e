# rustyirc core, modelled in Dafny

rustyirc is a one-file IRC bot (`src/main.rs`). It connects to a fixed server
and registers as `RustyTewl` with `NICK` and `USER`. It reads the socket into
a growing text buffer. Its framer `parse` cuts complete `'\n'`-terminated
lines out of that buffer. Each line goes to `handle_line`, which does one of
three things:

- it answers `PING` keep-alives by replacing every `PING` with `PONG`;
- it routes the line on its second space-separated token to a handler
  (`on_join`, `on_part`, `on_nick`, `on_privmsg`, `on_quit`, `on_notice`,
  `on_mode`, `on_kick`, `on_numeric`, `on_other`);
- it ignores a line with fewer than two tokens.

A handler prints one event, or nothing. The one exception is `on_numeric`:
on the welcome numeric 001 it sends `JOIN #KoachsWorkShop`. Every line the
bot writes gets a trailing `'\n'` from `send`.

The model has five modules:

- `Optional` (`optional.dfy`): the `Option` type.
- `Strings` (`strings.dfy`): the Rust `str` operations the bot uses, over `seq<char>`, with their algebra:
  - `find`, `split` / `join` on one character;
  - `starts_with`;
  - `trim_start_matches` / `trim_end_matches`;
  - `replace`.
- `Numbers` (`numbers.dfy`):
  - `u16::from_str`: an optional `+`, then one or more ASCII digits, value below 65536;
  - the `{:03}` formatting.
- `Handlers` (`handlers.dfy`):
  - the constants;
  - the `Event` that stands for one `printall` call;
  - each handler and `handle_line` as a pure function to an `Outcome`: `Silent`, `Emit(event)`, `Send(text)` or `Panic`.

  Every index or slice that can panic in the source becomes `Panic`. This covers `parts[2]` in JOIN/PART/NICK, `parts[3]` in NOTICE when there are 3 tokens, `parts[4]` in KICK when there are 4 tokens, and `[1..]` on an empty string. It also covers a string whose first character is not ASCII, because Rust slices by byte.
- `Connection` (`connection.dfy`):
  - the bot state (buffer, sent lines, printed events, halted after a panic);
  - the framer as a function `ParseFrom`. It takes the line handler as a parameter, so its laws hold for any handler; the bot passes `HandleLine`;
  - a reference definition of the framer (split the buffer on `'\n'`, stop at the first empty line) and the proof that they agree;
  - class `Bot`, whose `Parse` method is the source's in-place `while let` loop, proved equal to `ParseFrom`.

The bot does no CTCP decoding or style stripping, does not track its own nick,
shows no numerics, and does not strip a trailing `'\r'`: a `'\r'` before the
`'\n'` stays part of the line (`CarriageReturnKept`).

## Model

| member | source | states |
|---|---|---|
| Strings.Find | src/main.rs:60 | `buffer.find('\n')`: the first index holding the character, with none before it; the length exactly when the character is absent |
| Strings.Count | src/main.rs:78 | the number of separators is at most the length, and zero exactly when the separator is absent |
| Strings.Split | src/main.rs:78 | `line.split(' ')` gives one piece more than there are separators, and no piece contains the separator |
| Strings.Join | src/main.rs:182 | `join(" ")` starts with the first piece, and joining separator-free pieces puts exactly one separator between neighbours |
| Strings.SplitAppend | src/main.rs:27-28 | when text is appended, the complete pieces of a split stay as they were and the last piece is split again together with the appended text |
| Strings.JoinSplit | src/main.rs:181-182 | joining the pieces of a split with the same separator gives back the original text |
| Strings.SplitJoin | src/main.rs:181-182 | splitting the join of separator-free pieces (at least one) gives back those pieces |
| Strings.SplitAt | src/main.rs:143 | splitting `a + sep + b` with `a` separator-free gives `a` followed by the pieces of `b` |
| Strings.SplitAtIndex | src/main.rs:78 | a split at a separator with none before it gives the text before it, then the pieces of the text after it |
| Strings.SplitAtFind | src/main.rs:143 | the first piece of a split ends at the first separator, and the later pieces are those of the text after it |
| Strings.SplitAbsent | src/main.rs:143 | without a separator, a split gives the whole text as its only piece (`split('!').next()` is the token itself) |
| Strings.FirstPiece | src/main.rs:143 | `split('!').next()` is the text before the first `!`, or all of it |
| Strings.SepEnd | src/main.rs:181 | the index just past the n-th separator: the text before it holds exactly n separators and ends with one |
| Strings.JoinSplitSuffix | src/main.rs:181-182 | `parts[n..].join(" ")` is exactly the text after the n-th space of the line |
| Strings.StartsWith | src/main.rs:72 | `starts_with` (also at src/main.rs lines 209 and 234) holds exactly when the prefix is no longer than the text and agrees with it character by character |
| Strings.TrimStartMatches | src/main.rs:183 | `trim_start_matches(':')` leaves a suffix that does not start with `:`; every removed character was `:` |
| Strings.TrimEndMatches | src/main.rs:61 | `trim_end_matches('\n')` leaves a prefix that does not end with `'\n'`; every removed character was `'\n'` |
| Strings.TrimEndAbsent | src/main.rs:61 | on text without `'\n'`, as `buffer[..pos]` always is, `trim_end_matches('\n')` changes nothing |
| Strings.ReplaceAll | src/main.rs:74 | `replace` with a pattern and replacement of the same length keeps the length |
| Strings.ReplaceAbsent | src/main.rs:74 | `replace` leaves text without the pattern unchanged |
| Strings.PongLeavesNoPing | src/main.rs:74 | after `replace("PING", "PONG")` no `PING` is left anywhere in the text |
| Numbers.Decimal | src/main.rs:102 | `{}` of a number: one or more digits, a leading `0` only for zero, a single digit exactly below 10 |
| Numbers.ValueDecimal | src/main.rs:102 | the digits written for `n` read back as `n` |
| Numbers.ValueLeadingZeros | src/main.rs:90 | leading zeros do not change the value of a digit string |
| Numbers.ParseSpellings | src/main.rs:90 | `parse::<u16>` accepts `n` written with any number of leading zeros, with or without `+`, and gives `n` |
| Numbers.ParseDigits | src/main.rs:90 | a non-empty digit string whose value fits in 16 bits parses to that value, with or without a leading `+` |
| Numbers.ParseOverflow | src/main.rs:90 | a number of 65536 or more is rejected by `parse::<u16>`, written with any number of leading zeros and with or without `+` |
| Numbers.Pad3IsWelcome | src/main.rs:102-112 | `format!("{:03}", n)` is `"001"` exactly when `n` is 1 |
| Handlers.Render | src/main.rs:40-57 | an event is printed in one of `printall`'s colours exactly when it is not an "Other event" (which is given `white`, a name `printall` does not know) |
| Handlers.RenderShows | src/main.rs:146-248 | the text printed for an event ends with the message or the line it carries |
| Handlers.Frame | src/main.rs:34-36 | `send` writes the text followed by exactly one `'\n'` |
| Handlers.DropFirst | src/main.rs:144-146 | `&s[1..]` succeeds exactly when `s` is non-empty and its first character is ASCII (one byte), and then the first character followed by the result is `s`; otherwise it panics |
| Handlers.SenderOf | src/main.rs:143-144 | the sender is the first token up to its first `!`, without its first character; it panics exactly when that part is empty or starts with a non-ASCII character |
| Handlers.OnNumeric | src/main.rs:101-138 | `on_numeric` sends exactly when the numeric is 1, and then sends `JOIN #KoachsWorkShop`; otherwise it does nothing |
| Handlers.OnJoin | src/main.rs:140-149 | `on_join` never writes to the server and prints only a join event |
| Handlers.OnPart | src/main.rs:151-160 | `on_part` never writes to the server and prints only a part event |
| Handlers.OnNick | src/main.rs:162-171 | `on_nick` never writes to the server and prints only a nick-change event |
| Handlers.OnPrivmsg | src/main.rs:173-191 | `on_privmsg` never writes to the server and prints only a channel message or a query |
| Handlers.OnQuit | src/main.rs:193-205 | `on_quit` never writes to the server and prints only a quit event |
| Handlers.OnNotice | src/main.rs:207-225 | `on_notice` never writes to the server and prints only a channel or private notice |
| Handlers.OnKick | src/main.rs:232-248 | `on_kick` never writes to the server and prints only a kick event |
| Handlers.PingReply | src/main.rs:72-76 | a line starting with `PING` is answered with one send of the line with every `PING` replaced by `PONG`. That reply starts with `PONG`, holds no `PING`, and is one longer than the line on the wire. With no other `PING` it is `PONG` followed by the rest of the line |
| Handlers.OneTokenIsSilent | src/main.rs:77-78 | a non-PING line without a space is one token and is not dispatched |
| Handlers.NumericHandling | src/main.rs:87-90 | an unknown command that parses as a `u16` sends `JOIN #KoachsWorkShop` if its value is 1, and otherwise does nothing |
| Handlers.UnknownIsOther | src/main.rs:87-93 | an unknown command that is not a `u16` prints one "Other event" with the whole line |
| Handlers.SendsOnlyPongOrJoin | src/main.rs:71-98 | a line makes the bot write exactly when it starts with `PING` or is the welcome numeric; apart from PING, the only text written is `JOIN #KoachsWorkShop` |
| Handlers.RouteOutcome | src/main.rs:78-96 | for any command token, the route writes exactly for a numeric 1, and every event it prints is of the kind its command names |
| Handlers.EventMatchesCommand | src/main.rs:78-96 | a printed event comes from a non-PING line of two or more tokens, from the handler its second token names |
| Handlers.JoinHandling | src/main.rs:140-149 | JOIN panics without a third token, or on a bad sender or channel slice; otherwise it prints the sender and the third token without its first character |
| Handlers.PartHandling | src/main.rs:151-160 | PART, with the same panics, prints the sender and the third token without its first character |
| Handlers.NickHandling | src/main.rs:162-171 | NICK, with the same panics, prints the sender and the new nick (the third token without its first character) |
| Handlers.PrivmsgHandling | src/main.rs:173-191 | PRIVMSG is silent below three spaces. Otherwise it prints the sender and the text after the third space without leading colons: as a channel message exactly when the target is `#KoachsWorkShop`, else as a query |
| Handlers.QuitHandling | src/main.rs:193-205 | QUIT is silent below two spaces; otherwise it prints the sender and the text after the second space without leading colons |
| Handlers.NoticeHandling | src/main.rs:207-225 | NOTICE is silent below two spaces, panics at exactly two, and otherwise prints only when the fourth token starts with `:`. It prints the text after the third space without leading colons, as a channel notice exactly when the target is the channel |
| Handlers.KickHandling | src/main.rs:232-248 | KICK is silent below three spaces, panics at exactly three, and otherwise prints only when the fifth token starts with `:`. It prints sender, kicked nick `parts[3]`, channel `parts[2]`, and the text after the fourth space without leading colons |
| Handlers.ModeHandling | src/main.rs:228-230 | MODE always prints a mode change with the whole line |
| Connection.Apply | src/main.rs:34-57 | one handled line adds at most one sent line and at most one event to the logs, never removes any, keeps the buffer, and halts exactly on a panic |
| Connection.ParseFrom | src/main.rs:59-69 | when `parse` returns and the process has not panicked, the buffer holds no `'\n'`; the logs only grow; a halted bot is left as it is |
| Connection.Deliver | src/main.rs:26-28 | one read: a halted bot ignores it; afterwards the buffer holds no `'\n'` unless the process panicked; a read that completes no line is only appended to the buffer; the logs only grow |
| Connection.BlankAt | src/main.rs:62-65 | the framer stops at the first complete empty line, or at the incomplete tail; every line before the stopping point is non-empty |
| Connection.PiecesCons | src/main.rs:59-69 | a non-empty first line is handled and the framer continues with the rest |
| Connection.FramedAbsent | src/main.rs:60 | a buffer without `'\n'` hands on no line and is left as it is |
| Connection.FramedAtBlank | src/main.rs:62-65 | a buffer that begins with an empty line hands on nothing and is cleared |
| Connection.FramedAfterLine | src/main.rs:59-69 | a buffer that begins with a non-empty line hands that line on first, then frames the rest alike |
| Connection.DispatchFramedStep | src/main.rs:59-69 | handling the reference framer's lines of such a buffer is handling its first line, then the lines of the rest |
| Connection.ParseFromStep | src/main.rs:60-67 | one loop round on a non-empty line that does not panic: handle it, then drop it and its `'\n'` from the buffer (the `trim_end_matches` has nothing to trim) |
| Connection.ParseFromPanic | src/main.rs:66 | a line whose handling panics ends the process at that line |
| Connection.ParseFromFrames | src/main.rs:59-69 | `parse` sends and prints exactly what handling the reference framer's lines in order does. These are the `'\n'`-terminated lines without their `'\n'`, up to the first empty line or panic. It leaves the text after the last `'\n'`, or nothing after an empty line |
| Connection.NoBlankLines | src/main.rs:59-69 | without empty lines, every complete line is handled in order and the buffer keeps exactly the text after the last `'\n'`. No handled line holds a `'\n'`, and the lines and the leftover joined with `'\n'` are the buffer |
| Connection.DispatchAppend | src/main.rs:59-69 | handling one run of lines and then another is handling the two runs as one |
| Connection.ParseWithoutBlanks | src/main.rs:59-69 | for a buffer without empty lines, `parse` sends and prints what handling its complete lines in order does, and keeps the last, incomplete one |
| Connection.PartialLineCarried | src/main.rs:26-28 | a line split across two reads is kept in the buffer and handled once complete: without empty lines, reading `a` then `b` sends, prints, panics and leaves in the buffer exactly what reading `a + b` at once does |
| Connection.DeliverOneLine | src/main.rs:26-28 | one non-empty line read whole into an empty buffer is handled once and leaves the buffer empty |
| Connection.ParseOneLine | src/main.rs:59-69 | a buffer holding exactly one non-empty line is handled once and emptied |
| Connection.DeliverPanicLine | src/main.rs:26-28 | one line read whole whose handling panics halts the bot: nothing is sent or printed and the buffer keeps the line |
| Connection.PingRoundTrip | src/main.rs:72-76 | a `PING` line read whole produces exactly one sent line, the PONG reply plus `'\n'`, and no event |
| Connection.CarriageReturnKept | src/main.rs:61 | a `'\r'` before the `'\n'` stays part of the line handed on; a bare `"\r\n"` hands on the line `"\r"` |
| Connection.BlankLineDropsRest | src/main.rs:62-65 | after a line and an empty line, nothing further in the buffer is handled, and the buffer is cleared |
| Connection.DeliverLineThenBlank | src/main.rs:62-65 | a read holding a line and then an empty line handles that line only |
| Connection.ReadBoundaryMatters | src/main.rs:21-28 | a line after an empty line is handled when it comes in a later read, but dropped when it comes in the same read |
| Connection.Bot.Connect | src/main.rs:15-19 | after connecting, `NICK RustyTewl` and `USER RustyTewl 0 * :RustBot` have been sent, "Connected!" printed, and the buffer is empty |
| Connection.Bot.Send | src/main.rs:34-38 | `send` appends the framed text to the sent lines and changes nothing else |
| Connection.Bot.PrintAll | src/main.rs:40-57 | `printall` appends one event and changes nothing else |
| Connection.Bot.Handle | src/main.rs:71-98 | `handle_line` changes the state exactly as its outcome says |
| Connection.Bot.Parse | src/main.rs:59-69 | the in-place loop leaves the state that `ParseFrom` describes, and the buffer holds no `'\n'` unless the process panicked |
| Connection.Bot.Receive | src/main.rs:26-28 | a read chunk is appended to the buffer and then parsed; a halted bot ignores it |

## Left out

- Socket I/O in `main`: `TcpStream::connect` to `irc.koach.com:6667` (the constant is kept as `ServerAddress`), the 4096-byte read buffer, a read error (`?`), and the loop ending on a read of zero bytes. A read is modelled as a chunk of text given to `Bot.Receive`.
- `std::str::from_utf8(...).unwrap()` on each read: chunks are already text. The panic on invalid UTF-8, including a character split across two reads, is not modelled.
- `printall`'s timestamp (clock access) and terminal colouring. An event records the data printed, and `Render` gives the colour name and text passed to `printall`.
- The socket write in `send` and the `unwrap` of its result. A write is an append to `sent`.
- The commented-out numeric display and the empty per-numeric arms in `on_numeric` have no behaviour. The unused `parts` computed there is not modelled.
- `u16::from_str` is modelled as: an optional `+`, one or more ASCII digits, value below 65536. Any finer detail of Rust's integer grammar is not modelled.
- A panic is modelled by the `Panic` outcome and the `halted` flag. The process end itself is not modelled; a halted bot ignores all further input. `Bot.Parse` therefore requires a bot that has not halted; `Bot.Receive` checks this.
- Rust indexes strings by byte; the model indexes by character. For `find` and `split` on ASCII characters the two agree. The one place they differ, slicing off the first character with `[1..]`, is modelled by `DropFirst`: it panics unless the first character is ASCII.
- Handlers.OnMode, Handlers.OnOther, Handlers.HandleLine, Handlers.Route, Numbers.ParseU16 and Numbers.Pad3 carry no contract of their own. Their behaviour is stated by the lemmas about them in the table above.
