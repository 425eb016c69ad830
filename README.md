# go-cmdline: command dispatch, modelled in Dafny

`go-cmdline` is an interactive command shell. Each input line goes to
`RunCommand`, which either runs it in `/bin/bash` (a line starting with `!`),
or splits it into words with a regular expression and looks up the first word
in a map of registered command handlers. A registered handler runs either
directly with the remaining words, or, when more than one word follows the
command name and a `|` word is among them, with the words before the first `|`
while its output is piped into a shell command made of the words after it. Handlers are registered once at start-up; a later
handler with the same name replaces an earlier one.

The model covers that core of `cmdline_service.go`:

- `text.dfy`, module `Text`: the pieces of Go's standard library the core
  uses — the first-occurrence search the pipe loop performs, `strings.Join`,
  `unicode.IsSpace` and `strings.TrimSpace` (as a trim over any character
  predicate, like `strings.TrimFunc`).
- `tokenizer.dfy`, module `Tokenizer`: `regx.FindAllString(command, -1)` for
  the RE2 pattern `[^\s"']+|"([^"]*)"|'([^']*)`, as a left-to-right scanner over
  positions (`Scan`) with the tokens cut from the line (`Tokenize`). Separately
  from the scanner, `AllMatches` states what the matches of this pattern are
  (each one a longest match of one alternative, every position outside them
  one where no alternative can start), and the two lemmas
  `ScanFindsAllMatches` and `AllMatchesAreScan` prove the scanner returns
  exactly that list. Quote characters stay in the tokens, as `FindAllString`
  returns whole matches: `cmd "a b" c` gives `cmd`, `"a b"`, `c`, and
  `'abc' d` gives `'abc` and `' d` (the pattern's single-quote alternative has
  no closing quote).
- `dispatcher.dfy`, module `Dispatcher`: the decision `RunCommand` takes for a
  line, as a value — `Shell(command)`, `NotFound(name)`,
  `Direct(handler, args)` or `Piped(handler, handlerArgs, shellCommand)` — with
  a flag saying whether the blank separator line is printed. Handlers are
  abstract: a name (what `Command()` returns) and an identity.
- `service.dfy`, module `Service`: the `cmdlineService` object as the class
  `CmdlineService` with its `commandMap` field, `Register`, the start-up
  registration `New`, and `RunCommand` as a method whose pipe search is the
  source's loop, proved to take the decision `Dispatch` describes.

Behaviour of the code kept as written:

- The pipe loop's guard `i < argsLen` always holds, so when the first `|`
  among two or more arguments is the last of them it is still taken as the
  pipe, with an empty shell command (`TrailingPipe`). A `|` after the first one
  only ever lands in the shell command (`LaterPipeKept`, `FirstPipeSplits`). A
  single argument `|` is passed to the handler unchanged, because the search
  only runs when more than one argument follows the command name.
- The piped path returns at cmdline_service.go:106, before the separator
  `fmt.Println()` at cmdline_service.go:115, so that separator is not printed
  after a piped command (`BlankLineRule`).
- Quote characters are not stripped from tokens, and a `"` with no later `"`
  is skipped, so its content is split on white space like any other text
  (`ExampleDanglingQuote`).

## Model

| member | source | states |
|---|---|---|
| `Text.Find` | cmdline_service.go:102-103 | the index found holds the value and no earlier index from the start does; no index is found only when none holds it |
| `Text.Join` | cmdline_service.go:104-105 | `strings.Join` of no parts is empty, of one part is that part, and otherwise begins with the first part |
| `Text.JoinAppend` | cmdline_service.go:104-105 | joining two non-empty lists is joining each with one separator between them, which with the one- and zero-part cases determines `strings.Join` |
| `Text.TrimStart` | cmdline_service.go:81 | the result is the suffix of the input that starts at its first kept character; everything cut is white space |
| `Text.TrimEnd` | cmdline_service.go:81 | the result is the prefix of the input that ends at its last kept character; everything cut is white space |
| `Text.TrimSpec` | cmdline_service.go:81 | trimming keeps a contiguous middle piece, cuts only white space around it, leaves none at either end, and is idempotent |
| `Tokenizer.PlainRunEnd` | cmdline_service.go:20 | the alternative `[^\s"']+` takes the longest run of characters that are neither `\s` nor a quote |
| `Tokenizer.Scan` | cmdline_service.go:20 | the matches found from a position are non-empty, inside the line, and follow each other left to right without overlapping |
| `Tokenizer.MatchAtIsLongestMatch` | cmdline_service.go:20 | the match anchored at a position ends exactly where the pattern's leftmost-first, greedy match of the alternative for that character ends |
| `Tokenizer.NoMatchAtIsUnmatchable` | cmdline_service.go:20 | nothing matches at a position exactly when it holds `\s` or a `"` with no later `"` |
| `Tokenizer.ScanFindsAllMatches` | cmdline_service.go:93 | the scanner's spans are ordered, each is a longest match, and every position outside them is one where nothing can match |
| `Tokenizer.AllMatchesAreScan` | cmdline_service.go:93 | any span list with those properties is the scanner's: the matches of `FindAllString` are uniquely determined |
| `Tokenizer.TokensAreOrderedSubstrings` | cmdline_service.go:93 | every token is non-empty and is the text of its match, the matches being disjoint and in left-to-right order |
| `Tokenizer.TokenShapes` | cmdline_service.go:20 | a token not starting with a quote has no white space or quote; one starting with `"` ends with `"` and has no other `"`; one starting with `'` has no other `'` |
| `Tokenizer.DanglingQuoteSkipped` | cmdline_service.go:20 | a `"` with no later `"` starts no token and the scan resumes at the next character |
| `Tokenizer.NoTokensIff` | cmdline_service.go:93-95 | a line gives no token (the case where `splitArgs[0]` panics) exactly when it holds only white space and `"` characters none of which has a later `"` |
| `Tokenizer.ExampleDoubleQuoted` | cmdline_service.go:93 | `cmd "a b" c` gives `cmd`, `"a b"`, `c`, quotes kept |
| `Tokenizer.ExampleSingleQuoted` | cmdline_service.go:20 | `'abc' d` gives `'abc` and `' d` |
| `Tokenizer.ExampleDanglingQuote` | cmdline_service.go:20 | `a "b` gives `a` and `b` |
| `Dispatcher.ShellEscapeBypassesRegistry` | cmdline_service.go:80-91 | a line starting with `!` gives, whatever the command map, the shell action on the trimmed rest of the line; no handler runs and no blank line follows |
| `Dispatcher.UnknownCommand` | cmdline_service.go:97-115 | the not-found report happens exactly when the first token is not registered; it prints `<name>: command not found` and a blank line and calls no handler |
| `Dispatcher.FirstPipeSplits` | cmdline_service.go:99-106 | with more than one argument, the first pipe token at index i sends `args[:i]` to the handler and `args[i+1:]` joined by single spaces to the shell, losing nothing and skipping the separator line of :115 |
| `Dispatcher.DirectCall` | cmdline_service.go:99-115 | the handler is called directly, once, with the argument list unchanged and a blank line after, exactly when the name is registered and at most one argument follows or none is the pipe token |
| `Dispatcher.TrailingPipe` | cmdline_service.go:101-106 | a first pipe token that ends two or more arguments still pipes, with an empty shell command |
| `Dispatcher.LaterPipeKept` | cmdline_service.go:102-105 | a later pipe token stays in the shell command between the words around it (one right after the first or at the end is covered by `FirstPipeSplits`) |
| `Dispatcher.OnlyRegisteredHandlerRuns` | cmdline_service.go:95-110 | a handler runs only for a line that is not a shell escape and whose first token is registered to it, and it receives a prefix of the arguments after that token |
| `Dispatcher.BlankLineRule` | cmdline_service.go:106-115 | the blank line follows exactly the not-found report and the direct call |
| `Dispatcher.ExamplePipe` | cmdline_service.go:99-106 | the tokens cmd, x, pipe token, sort call the handler with `x` and pipe into `sort` |
| `Dispatcher.ExampleAdjacentPipes` | cmdline_service.go:101-106 | with the tokens cmd, a, pipe token, pipe token, b the shell command is the pipe token then b joined by a space; with cmd, a, pipe token, b, pipe token it is b then the pipe token; the handler gets `a` in both |
| `Dispatcher.ExampleNoPipe` | cmdline_service.go:101-110 | the tokens cmd, pipe token and the tokens cmd, x call the handler directly with the one argument |
| `Service.RegisterAllLookup` | cmdline_service.go:32-36 | after start-up a name is registered exactly when some handler gives it (or it was before), and maps to the last handler giving it; other entries are unchanged |
| `Service.RegisterTwiceKeepsSecond` | cmdline_service.go:120 | registering two handlers under one name leaves only the second reachable |
| `Service.RegisterAllKeyed` | cmdline_service.go:119-121 | registration keeps every entry under the name its handler gives |
| `Service.HandlerRunsUnderItsName` | cmdline_service.go:97-110 | the handler that runs for a line is one whose `Command()` is the line's first token |
| `Service.CmdlineService.New` | cmdline_service.go:24-38 | the new service keeps its prompt and holds the map built by registering the discovered handlers in order |
| `Service.CmdlineService.Register` | cmdline_service.go:119-121 | the handler goes under its own name, replacing any earlier one; every other entry and the prompt are unchanged |
| `Service.CmdlineService.RunCommand` | cmdline_service.go:79-116 | the loop that searches the arguments for the pipe token and the rest of the method take exactly the decision `Dispatch` describes for the current command map; on a valid service the handler that runs is the one whose `Command()` is the line's first token |

## Left out

- `pipeCommand` (cmdline_service.go:40-77): the goroutine, channel, `os.Pipe`, swapping of the process-wide `os.Stdout` and its restoration are concurrency and process I/O; the model keeps only its inputs, the handler arguments and the shell command string of `Piped`. The stdout/stderr buffer mix-up at lines 56-57 belongs to that plumbing and is not modelled.
- `pipeCommand`'s own output: when the shell command succeeds, its `fmt.Fprintln` calls at cmdline_service.go:62-63 still print a newline on stdout (after the buffer that line 57 leaves empty) and the shell's output followed by a newline on stderr; `Decision.blankLine` and `Printed` cover only what `RunCommand` prints itself.
- Running `/bin/bash -c` for `!` lines and for pipes, and printing its errors: external processes; the model keeps the command string.
- `Execute` (cmdline_service.go:123-171): the readline loop, prompt, completer and the listing of registered names in map order are terminal I/O through a foreign library.
- `New`'s discovery through `applicationContext.ForEach` with a dynamic type check is a foreign library; the model's `New` takes the discovered handlers as a sequence and registers them in order.
- What a handler does and the status it returns (discarded by the source): handlers are a name and an identity.
- Service.CmdlineService.RunCommand: requires a line that is a shell escape or yields a token; on a line with no token (a lone `"`, say) the source indexes an empty slice and panics, which the model does not represent (`Tokenizer.NoTokensIff` says which lines those are).
- Text and Tokenizer work on Unicode characters; Go's handling of invalid UTF-8 bytes in strings is not modelled.
