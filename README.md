# blueis core in Dafny

blueis is a small Redis-like key-value server written in Go. This project
models and proves the two parts that hold its logic:

- **The request decoder** (`parser/parser.go`). A `Parser` reads one
  request at a time from a connection. A request is either an inline text
  line, whose tokens are separated by spaces and may be quoted with `"` and
  `\"`, or a RESP array of integers, bulk strings and nested arrays, which
  is flattened into one argument list.
- **The command engine** (`command/command.go`). `GET`, `SET` (with
  `NX`/`XX` and `EX`/`PX`), `DEL` and `QUIT` run against the shared
  `cache`. Each expiry starts a goroutine that later deletes the key.

The project follows the source's structure:

| file | module | what it holds |
|---|---|---|
| `text.dfy` | `Text` | bytes, `strconv.Atoi`, decimal formatting, `strings.ToUpper` comparison |
| `parser_spec.dfy` | `ParserSpec` | what the decoder computes, as functions of the byte stream |
| `parser.dfy` | `Parser` | the `Parser` class: fields `line` and `index`, the reader position, and one method per Go function |
| `parser_properties.dfy` | `ParserProperties` | properties of the decoder, including the RESP round trip |
| `command_spec.dfy` | `CommandSpec` | what one request does to the store |
| `command.dfy` | `Command` | the `Store` class: `cache`, pending expiry timers, one method per Go function |
| `command_properties.dfy` | `CommandProperties` | properties of the command semantics |

Each imperative method is proved equal to its specification function, for
example `Parsed(d, pos) == Next(input, old(pos))` for `GetCommand` and
`Effect(cache, pending, o) == Execute(...)` for `Handle`. The properties
are then proved about those functions.

### How the Go code is represented

- **Bytes.** Go strings and byte slices are `seq<Byte>`, where `Byte` is a
  `char` below 256.
- **Unquoted inline tokens.** They are built with `string(byte)`, so a
  byte from 0x80 up becomes two UTF-8 bytes (`RuneOf`, `Widen`). Quoted
  tokens keep their raw bytes.
- **Command and option names.** `strings.ToUpper(x) == "GET"` is `UpperIs`.
  It upper-cases ASCII bytes, and it also accepts U+0131 (ı) as `I` and
  U+017F (ſ) as `S`, because Go upper-cases those two to ASCII.
- **Numbers.** `strconv.Atoi` with its error ignored is `Atoi`: an
  optional sign and digits give their value, anything else gives 0.
- **Failures.** Go's `(cmd, err)` result is `Decoded(args, err)`,
  arguments gathered so far included. `io.EOF` is `EndOfStream`.
- **Panics and hangs.** Three runtime panics become explicit results: a
  negative bulk length (`SliceBounds`), an empty invocation reaching
  `Handle` (`Crashed`), and a SET whose expiry amount is missing
  (`Crashed`). No code recovers from them, so each ends the whole server. An inline line that starts with `\r` makes
  `parseInline` loop forever; it is modelled as `NoProgress`.
- **Expiry timers.** Each goroutine started by `setExpiration` is an
  `Expiry(key, delayMs)` entry in `pending`. `Store.Fire(i)` is that
  goroutine waking up and deleting its key.

### Where the code differs from a strict reading of the protocol

The model follows the code in each of these cases:

- Bulk strings are not binary-safe. The `$` case reads whole lines until
  it has at least the announced length, then cuts to that length. A `\r`
  inside the data splits it, and after `$0` no line is read at all.
- The byte after a `\r` is consumed but never checked to be `\n`.
- An invocation can be empty: a blank inline line, `*0`, or elements with
  an unknown lead byte. The session loop hands it to `Handle` unchecked,
  and `Handle` panics reading `Args[0]` (`ZeroCountCrashes`).
- An expired key stays visible until its timer fires. There is no lazy
  expiry check on `GET`.
- A timer is never cancelled. A later `SET` of the same key does not clear
  the timer, and the timer deletes whatever value the key holds by then
  (`StaleTimer`).
- `SET k v EX`, `SET k v FOO` and `SET k v NX PX` (for a new key) panic.
  `setExpiration` reads the amount before it checks the option.
- `GET` unquotes every value that starts with `"`, not only values that
  are wrapped in quotes. A value that does not unquote is shown as empty.

## Model

| member | source | states |
|---|---|---|
| Text.Decimal | command/command.go:115 | `%d` of a count: at least one digit, all digits, no leading zero |
| Text.Atoi | command/command.go:131 | `strconv.Atoi` with the error ignored: a negative result needs a leading `-`, and text that does not end in a digit gives 0 |
| Text.AtoiDecimal | parser/parser.go:164 | `Atoi` reads a formatted count or length back as the same number |
| Text.DigitsValueDecimal | parser/parser.go:164 | the digits of `n` have the value `n` |
| Text.UpperIs | command/command.go:22 | `strings.ToUpper(s) == w`: a match has at least as many bytes as `w` and at most two per letter |
| Text.UpperIsAscii | command/command.go:22 | for ASCII text, matching an upper-case word is the byte-wise case-insensitive comparison, in both directions |
| Text.UpperIsUnique | command/command.go:72-87 | one argument never matches two different upper-case words |
| ParserSpec.ReadLineAt | parser/parser.go:46-59 | a line has no `\r`, ends just before the first `\r`, and the reader moves past the `\r` and one more byte; otherwise end of stream with everything consumed |
| ParserSpec.SkipSpaces | parser/parser.go:63-65 | stops at the first byte that is not a space, and everything skipped is a space |
| ParserSpec.WordEnd | parser/parser.go:73-76 | an unquoted token stops at the first space, `\r` or line end, and contains none of them |
| ParserSpec.RuneOf | parser/parser.go:74 | `string(b)` is `b` for ASCII, and the two-byte UTF-8 encoding of code point `b` otherwise |
| ParserSpec.Widen | parser/parser.go:73-76 | the token built one `string(current())` at a time is at least as long as the bytes it came from |
| ParserSpec.WidenAscii | parser/parser.go:74 | an ASCII token is unchanged by `string(byte)` concatenation |
| ParserSpec.QuotedAt | parser/parser.go:82-102 | a quoted token either fails with unbalanced quotes at line end, or ends just after a `"` |
| ParserSpec.ArgAt | parser/parser.go:62-79 | `parserArg` advances the cursor exactly when the byte under it is not `\r`; an error is only unbalanced quotes |
| ParserSpec.InlineFrom | parser/parser.go:137-149 | the inline loop never appends an empty argument, and its only error is unbalanced quotes |
| ParserSpec.InlineArgs | parser/parser.go:128-150 | `parseInline` on a line yields no empty argument, and its only error is unbalanced quotes |
| ParserSpec.BulkAt | parser/parser.go:188-195 | the bulk loop returns at least `length` bytes that extend what it had, or end of stream |
| ParserSpec.ElementAt | parser/parser.go:172-204 | every element consumes at least its lead byte; a failed element contributes no argument; its only errors are end of stream, with the whole stream consumed, and the negative-length panic |
| ParserSpec.ElementsAt | parser/parser.go:166-205 | the element loop never moves the reader backwards; end of stream is reported only with the whole stream consumed, and no other error than the negative-length panic occurs |
| ParserSpec.RespArrayAt | parser/parser.go:153-208 | an array request never moves the reader backwards; end of stream is reported only with the whole stream consumed, and no other error than the negative-length panic occurs |
| ParserSpec.InlineLine | parser/parser.go:116-122 | the inline line is the first byte followed by the rest of the line, with no `\r` after the first byte |
| ParserSpec.Next | parser/parser.go:105-125 | `GetCommand` never moves the reader backwards; end of stream means the whole stream was consumed; it never progresses exactly when an inline line starts with `\r` |
| Parser.Parser.constructor | parser/parser.go:19-26 | a new parser has read nothing and has an empty line at index 0 |
| Parser.Parser.AtEnd | parser/parser.go:31-33 | `atEnd` holds exactly when the cursor is at the end of the line, as the cursor never passes it |
| Parser.Parser.Current | parser/parser.go:36-41 | `current` gives `\r` exactly at the end of the line or on a literal `\r`, and otherwise the byte under the cursor |
| Parser.Parser.ReadByte | parser/parser.go:106-110 | the reader yields the next byte and advances, or reports end of stream without moving |
| Parser.Parser.ReadLine | parser/parser.go:46-59 | the loop reads exactly the line `ReadLineAt` describes |
| Parser.Parser.SkipBlanks | parser/parser.go:129-131 | the cursor ends at `SkipSpaces` of where it started |
| Parser.Parser.ReadWord | parser/parser.go:73-76 | the cursor ends at `WordEnd`, and the token is the widened bytes it passed |
| Parser.Parser.ParseString | parser/parser.go:82-102 | the loop computes `QuotedAt`: the unescaped token and the cursor after the closing quote, or unbalanced quotes |
| Parser.Parser.ParseArg | parser/parser.go:62-79 | `parserArg` computes `ArgAt` |
| Parser.Parser.ParseInline | parser/parser.go:128-150 | the cursor reaches the line end, and the result is `InlineFrom` after the leading spaces |
| Parser.Parser.ReadBulk | parser/parser.go:186-195 | the `len(text) < length` loop computes `BulkAt` |
| Parser.Parser.ParseRespArray | parser/parser.go:153-208 | `parseRespArray` computes `RespArrayAt`, with partial arguments kept on error |
| Parser.Parser.ParseElement | parser/parser.go:172-204 | the `switch symbol` computes `ElementAt` for the element whose lead byte was just read |
| Parser.Parser.GetCommand | parser/parser.go:105-125 | `GetCommand` computes `Next`, and sets `line` and `index` as the inline branch does |
| ParserProperties.ReadLineOf | parser/parser.go:46-59 | a line without `\r` followed by `\r` and one byte is read back exactly |
| ParserProperties.SpacesThen | parser/parser.go:63-65 | leading spaces do not change the token `parserArg` reads |
| ParserProperties.InlineToken | parser/parser.go:137-147 | one successful `parserArg` call contributes its token (when non-empty) in front of the rest of the line |
| ParserProperties.WordToken | parser/parser.go:73-76 | an unquoted word followed by a space or line end is read as its widened bytes, and the cursor stops after it |
| ParserProperties.InlineFromFields | parser/parser.go:128-150 | on a line without quotes, the inline loop yields the non-empty space-separated fields in order, each widened |
| ParserProperties.InlineArgsAreFields | parser/parser.go:128-150 | the same for a whole line after its leading spaces |
| ParserProperties.QuotedDecodes | parser/parser.go:82-102 | `\"`-escaping round trip: any text not ending in `\` comes back from the quoted-token loop, and the cursor stops after the closing quote |
| ParserProperties.QuotedToken | parser/parser.go:67-71 | a whole quoted token is read as its unescaped text |
| ParserProperties.TrailingBackslash | parser/parser.go:86-92 | in `"a\"` the final quote is taken as escaped, so the token is unbalanced |
| ParserProperties.QuotedUnclosed | parser/parser.go:96-98 | a quote that is never closed fails with unbalanced quotes at the line end |
| ParserProperties.UnclosedQuote | parser/parser.go:137-141 | an unclosed quote fails the line with unbalanced quotes, and the tokens before it are kept: the fields of the quote-free text in front of it, widened |
| ParserProperties.UnclosedQuoteExample | parser/parser.go:137-141 | `a "b` decodes to `["a"]` with unbalanced quotes |
| ParserProperties.EmptyQuotedDropped | parser/parser.go:143-145 | an empty quoted token `""` adds no argument |
| ParserProperties.InlineSetExample | parser/parser.go:128-150 | `SET  "a b" 1` decodes to `["SET", "a b", "1"]` |
| ParserProperties.HighByteToken | parser/parser.go:73-76 | an unquoted byte from 0x80 up comes back as two bytes, not as itself |
| ParserProperties.QuotedHighByte | parser/parser.go:66-70 | inside quotes the same byte comes back unchanged |
| ParserProperties.DecimalLine | parser/parser.go:158-164 | a count line `n\r\n` is read back as the digits of `n` |
| ParserProperties.IntegerDecodes | parser/parser.go:174-180 | an encoded RESP integer decodes to its text as one argument |
| ParserProperties.BulkDecodes | parser/parser.go:181-196 | an encoded non-empty bulk string without `\r` decodes to its bytes as one argument |
| ParserProperties.ArrayDecodes | parser/parser.go:197-203 | a nested array decodes to its flattened arguments |
| ParserProperties.ElementDecodes | parser/parser.go:172-204 | any encodable RESP value decodes to its flattened arguments, and the reader stops at its end |
| ParserProperties.ElementsDecode | parser/parser.go:166-205 | a run of encodable values decodes to their flattened arguments in order |
| ParserProperties.RequestDecodes | parser/parser.go:105-114 | a RESP array request followed by anything decodes to its flattened arguments, and the reader stops at its end |
| ParserProperties.BulkStringsEncodable | parser/parser.go:181-196 | arguments that are non-empty and `\r`-free are encodable bulk strings that flatten back to themselves |
| ParserProperties.ArgumentsRoundTrip | parser/parser.go:153-208 | any argument list with non-empty, `\r`-free arguments, sent as an array of bulk strings, decodes back to itself |
| ParserProperties.GetRequestExample | parser/parser.go:153-208 | `*2\r\n$3\r\nGET\r\n$1\r\nx\r\n` decodes to `["GET", "x"]` |
| ParserProperties.GetRequestBytes | parser/parser.go:153-208 | a client sends `GET x` as the bytes `*2\r\n$3\r\nGET\r\n$1\r\nx\r\n` |
| ParserProperties.NonPositiveCount | parser/parser.go:164-166 | an array count of 0 or less (or not a number) yields no arguments and no error |
| ParserProperties.ZeroCountExample | parser/parser.go:164-166 | `*0\r\n` decodes to the empty invocation |
| ParserProperties.NegativeLength | parser/parser.go:181-196 | a negative bulk length reads no data and then panics at `text[:length]` |
| ParserProperties.BulkAcrossLines | parser/parser.go:181-196 | bulk strings are read line by line: `$2\r\na\r\nb\r\n` gives the one argument `ab`, the CRLF between the lines dropped |
| ParserProperties.NegativeLengthExample | parser/parser.go:181-196 | `*1\r\n$-1\r\n` ends in that panic |
| ParserProperties.BlankLine | parser/parser.go:128-150 | a line of spaces decodes to no arguments |
| ParserProperties.BlankLineExample | parser/parser.go:105-125 | `   \r\n` decodes to the empty invocation |
| ParserProperties.UnknownLeadByte | parser/parser.go:172-204 | an element whose lead byte is not `:`, `$` or `*` adds nothing and consumes only that byte |
| ParserProperties.NextInline | parser/parser.go:115-124 | a request not starting with `*` or `\r` is the inline decoding of its line |
| ParserProperties.LeadingCarriageReturn | parser/parser.go:116-123 | an inline line starting with `\r` never makes progress |
| CommandSpec.WrongArity | command/command.go:40 | the arity error is a RESP error line, starting with `-` and ending in CRLF, that names the command |
| CommandSpec.UnknownCommand | command/command.go:33 | the unknown-command error is a RESP error line that names the command |
| CommandSpec.BulkReply | command/command.go:52-53 | GET's reply is `$`, the length in decimal that `Atoi` reads back, CRLF, the shown value unchanged, CRLF |
| CommandSpec.CountReply | command/command.go:115 | DEL's reply is `:`, digits that `Atoi` reads back as the count, CRLF |
| CommandSpec.NamesDistinct | command/command.go:22-30 | no text matches two command names, so at most one case of the switch applies |
| CommandSpec.NotBothConditions | command/command.go:72-87 | no SET option is both NX and XX, so at most one condition branch applies |
| CommandSpec.NotBothUnits | command/command.go:134-141 | no option is both EX and PX |
| CommandSpec.NameOf | command/command.go:22-30 | each command is chosen exactly when `strings.ToUpper` of the first argument is its name |
| CommandSpec.Shown | command/command.go:47-50 | GET shows a value not starting with `"` as it is; a value starting with `"` is shown as its unquoting when that succeeds and as nothing when it fails |
| CommandSpec.GetOutcome | command/command.go:38-59 | GET keeps the connection open, answers nil exactly for a missing key, and an error exactly for the wrong number of arguments |
| CommandSpec.ExpiryOf | command/command.go:129-141 | a timer exists exactly for EX or PX; it is for the key being set; EX waits the amount times 1000 ms, PX the amount in ms |
| CommandSpec.OptionIndex | command/command.go:69-87 | the expiry option is at index 4 exactly when exactly one of NX and XX matched, and at index 3 otherwise |
| CommandSpec.SetEffect | command/command.go:61-99 | SET keeps the connection open; anything but `+OK` changes nothing; `+OK` needs three to six arguments, stores `args[2]` under `args[1]` and adds at most one timer, for that key, after the others |
| CommandSpec.DelEffect | command/command.go:101-117 | DEL removes exactly the listed keys that were stored, keeps every other value, and leaves the timers alone |
| CommandSpec.QuitOutcome | command/command.go:119-127 | QUIT closes the connection exactly when it has no argument; it replies `+OK` and closes, or replies the arity error and stays open |
| CommandSpec.Execute | command/command.go:21-36 | an empty invocation panics and changes nothing; otherwise only SET and DEL change the store, only SET adds timers or panics, and only QUIT closes the connection |
| CommandSpec.FireAt | command/command.go:143-146 | a timer deletes its key and keeps every other key and its value; the queue loses exactly that timer and keeps the others in order |
| Command.Store.constructor | command/command.go:13 | the store starts empty with no timers |
| Command.Store.Handle | command/command.go:21-36 | `Handle`, on any argument list including the empty one, does what `Execute` describes to the store, the timers and the reply |
| Command.Store.Get | command/command.go:38-59 | `Get` replies as `GetOutcome` says and changes nothing |
| Command.Store.Set | command/command.go:61-99 | `Set` changes the store and timers and replies as `SetEffect` says |
| Command.Store.SetExpiration | command/command.go:129-149 | panics when the amount is missing, refuses an unknown option without a timer, and otherwise adds exactly the timer `ExpiryOf` gives |
| Command.Store.Del | command/command.go:101-117 | the loop removes the listed keys and counts those present, as `DelEffect` says |
| Command.Store.Quit | command/command.go:119-127 | `Quit` replies as `QuitOutcome` says |
| Command.Store.Fire | command/command.go:143-146 | the expiry goroutine's `cache.Delete` is `FireAt` |
| CommandProperties.FailuresChangeNothing | command/command.go:21-149 | for every argument list, empty included, an error reply, a nil reply or a panic leaves the store and the timers unchanged |
| CommandProperties.OnlySetAndDelWrite | command/command.go:21-36 | for every argument list, empty included, only SET and DEL change the store; only a successful SET with an expiry option adds a timer, one for its own key |
| CommandProperties.SetStores | command/command.go:61-99 | a SET that replies `+OK` stores exactly its value under its key and adds at most one timer, for that key; any other SET changes nothing |
| CommandProperties.SetConditions | command/command.go:72-87 | NX gives a nil reply exactly when the key exists; XX exactly when it does not |
| CommandProperties.SetThenGet | command/command.go:38-99 | GET after a plain SET shows the stored value, unquoted when it starts with `"` |
| CommandProperties.DelRemoves | command/command.go:101-117 | after DEL no listed key remains, and every unlisted key keeps its value |
| CommandProperties.ListedSize | command/command.go:109-113 | a key list has at most as many distinct keys as entries, and exactly as many when they are distinct |
| CommandProperties.DelCount | command/command.go:101-117 | DEL's count is at most the keys listed and the keys stored; it is all of them when they are distinct and stored; it is 0 exactly when none is stored |
| CommandProperties.CountReplyInjective | command/command.go:115 | different counts give different `:n` replies |
| CommandProperties.DelSameKeyTwice | command/command.go:109-115 | `DEL k k` deletes a stored key once and replies `:1` |
| CommandProperties.OnlyQuitCloses | command/command.go:21-127 | for every argument list, empty included, the connection is closed exactly for QUIT with no argument |
| CommandProperties.ArityErrors | command/command.go:21-35 | GET without exactly one key, SET with fewer than three or more than six arguments, DEL without a key and QUIT with arguments reply the arity error and change nothing; a bare QUIT replies `+OK` and closes; any other name replies the unknown-command error and changes nothing |
| CommandProperties.CrashConditions | command/command.go:21-93 | a request panics exactly when it is empty, or a SET of 4 to 6 arguments that passes NX/XX and ends at its expiry option |
| CommandProperties.ZeroCountCrashes | command/command.go:22 | `*0\r\n` decodes without error to the empty invocation, and handling it panics with nothing changed |
| CommandProperties.MissingAmountCrashes | command/command.go:129-131 | `SET k v EX`, `SET k v FOO` and, for a new key, `SET k v NX PX` panic |
| CommandProperties.ExpiryScheduled | command/command.go:133-146 | `EX n` stores the value and schedules deletion in `n * 1000` ms; `PX n` in `n` ms |
| CommandProperties.NonNumericAmount | command/command.go:129-144 | for every SET that reaches an EX or PX option whose amount is not an optional sign and digits, the value is stored and a timer of 0 ms is queued for the key |
| CommandProperties.BadExpiryOption | command/command.go:129-140 | for every SET that reaches an expiry option with an amount, an option other than EX or PX replies with the option error and changes neither the store nor the timers |
| CommandProperties.StaleTimer | command/command.go:143-146 | a timer from `SET k v EX 10` still deletes the value of a later plain `SET k w` |
| CommandProperties.NamesIgnoreCase | command/command.go:22-30 | for ASCII text each of GET, SET, DEL and QUIT is chosen exactly when the text has the name's length and every byte upper-cases to the name's letter |
| CommandProperties.LongSNamesSet | command/command.go:22 | `ſet` (U+017F) names SET |
| CommandProperties.RepliesAreResp | command/command.go:52-53 | GET's reply is the RESP bulk string of the value, and DEL's is the RESP integer of the count |
| CommandProperties.BulkReplyDecodes | command/command.go:52-53 | the decoder's own element reader reads a GET reply back as the value shown |

## Left out

- The TCP listener and the session loop of `main.go`: accept, `GetCommand`, `Handle`, writing decode errors and closing. The model stops at one request and one `Handle` call.
- Concurrency. `sync.Map` is a plain map, and requests run one at a time. Timers fire only through `Store.Fire`, in any order the caller chooses. Wall-clock time and the relation between `delayMs` and firing order are not modelled.
- A zero or negative delay fires right away. The goroutine may then delete the key before `cache.Store` runs, which leaves the new value in place. The model always stores first and leaves the firing to a later `Fire`.
- The escape grammar of `strconv.Unquote` is not part of this model. `Store.unquote` is a parameter, so every property holds for any unquoting function.
- `Atoi`: does not model the 64-bit range of `strconv.Atoi`. For a number that does not fit, Go returns the value clamped to the int64 limit together with a range error; the code ignores the error and uses the clamped value. The model returns the exact unbounded value instead. `time.Duration` overflow of `value * time.Second` is not modelled either. `delayMs` is an unbounded integer.
- `log.Println` calls are left out. Socket writes are represented only by the reply bytes in `Outcome`.
- The reader's buffering. `input` is the whole stream the connection will ever deliver, so blocking reads and read errors other than end of stream are not modelled.
