# title-extractor, modelled in Dafny

`titlextractor.go` reads URLs, one per line, from standard input. It fetches
each URL with a pool of workers, takes the text of the page's `<title>`
element and prints one coloured status line per URL. This project models the
deterministic logic inside that pipeline and proves what it does:

- `Whitespace` (`whitespace.dfy`) covers `strings.Fields`, `strings.Join` and
  `strings.TrimSpace`, with Go's `unicode.IsSpace` as the white space class. It
  also covers the normalisation `TrimSpace(Join(Fields(s), " "))` that every
  title goes through.
- `Title` (`title.dfy`) models `getTitle`. The HTML tokenizer's output is a
  finite sequence of tokens, and after the last one the tokenizer reports end of
  input. `GetTitle` is the scanning loop, and it is proved equal to the
  recursive specification `TitleOf`.
- `Status` (`status.dfy`) models `colorForStatusCode` and the ANSI colour
  constants.
- `Decimal` (`decimal.dfy`) models the `%d` rendering of the status code, with
  its inverse.
- `Pipeline` (`pipeline.dfy`) runs the pipeline one URL at a time:
  - `ReadUrls` is the producer's line filter.
  - `HandleUrl` and `Work` are the worker's per-URL body and loop.
  - `Present` and `FormatLine` are the result loop and the line it prints.
  - `Run` chains them together.

Five behaviours of the code are worth knowing:

- Every status code from 500 up is printed in magenta, 600 and above included
  (HTTP defines only 500–599 as server errors, RFC 9110 section 15.6).
- The worker count given with `-c` is never validated. A count of 0 prints
  nothing, and a negative count makes the program panic (see "## Left out").
- A successful result can carry an empty title, so it holds neither a title nor
  an error. This happens when the title start tag is the last token
  (`TitleTagAtEndYieldsEmpty`) or when the title text is all white space.
- Because `getTitle` takes the `Data` of whatever token follows the start tag,
  an empty `<title></title>` yields the end tag's name, `"title"`
  (`EmptyTitleElementYieldsTagName`).
- The request's context is cancelled (titlextractor.go:73) before `getTitle`
  reads the body (line 82). A body read after that can fail with
  `context canceled`, and line 43 then makes that message the title of a
  result that counts as a success. In the model this is a `Response` whose
  tokens reach `ErrorToken(ReadFailure("context canceled"))` before any title
  tag (`ErrorTextOnFailure`).

## Model

| member | source | states |
|---|---|---|
| `Whitespace.IsSpace` | titlextractor.go:55 | the white space class `strings.Fields` and `strings.TrimSpace` split and trim on, Go's `unicode.IsSpace`: tab, line feed, vertical tab, form feed, carriage return, space, U+0085, U+00A0, U+1680, U+2000–U+200A, U+2028, U+2029, U+202F, U+205F and U+3000; its consequences are stated by `TrimSpaceSpec`, `TrimSpaceEmptyIff` and `FieldsCoverNonSpace` |
| `Whitespace.Fields` | titlextractor.go:55 | every field `strings.Fields` returns is a non-empty run of non-space characters. With `Fields([]) == []`, `FieldsSkipsSpace`/`FieldsSkipsSpaces` (a leading space is skipped) and `FieldsOfWordThenSpace` (a word followed by nothing or by a space is split off as one field), this fixes the result on every input: the maximal non-space runs, in order |
| `Whitespace.FieldsSkipsSpaces` | titlextractor.go:55 | white space in front of a string adds no field |
| `Whitespace.FieldsOfWordThenSpace` | titlextractor.go:55 | a word followed by nothing or by white space is split off as one field, and splitting goes on after it |
| `Whitespace.FieldsCoverNonSpace` | titlextractor.go:55 | the fields, glued together without a separator, give the input with all its white space removed: no non-space character is lost, added or moved |
| `Whitespace.Join` | titlextractor.go:55 | `strings.Join(ws, " ")`: its properties are stated by `FieldsOfJoin` (the words come back), `JoinIsSingleSpaced` (single spaces between words) and `JoinOfFields` (it inverts `Fields` on single-spaced text) |
| `Whitespace.TrimSpace` | titlextractor.go:55 | `strings.TrimSpace`, as left trim then right trim: `TrimSpaceSpec` fixes its result on every input, and `TrimSpaceIdempotent` and `TrimSpaceEmptyIff` follow |
| `Whitespace.TrimLeftSpec` | titlextractor.go:55 | the left trim returns a suffix of its input that does not start with white space, and everything it dropped is white space |
| `Whitespace.TrimRightSpec` | titlextractor.go:55 | the right trim returns a prefix of its input that does not end with white space, and everything it dropped is white space |
| `Whitespace.TrimSpaceSpec` | titlextractor.go:55 | `TrimSpace` returns a slice of its input that neither starts nor ends with white space, and everything it cut off on either side is white space |
| `Whitespace.TrimSpaceIdempotent` | titlextractor.go:118 | trimming an already trimmed string changes nothing |
| `Whitespace.TrimSpaceEmptyIff` | titlextractor.go:118-119 | a line trims to `""` exactly when every character in it is white space |
| `Whitespace.FieldsOfJoin` | titlextractor.go:55 | joining non-empty, space-free words with single spaces and splitting the result again gives the same words back |
| `Whitespace.JoinIsSingleSpaced` | titlextractor.go:55 | words joined with `" "` make a string whose only white space is single spaces between non-space characters |
| `Whitespace.JoinOfFields` | titlextractor.go:55 | splitting a single-spaced string into fields and joining them with `" "` rebuilds the string |
| `Whitespace.Normalize` | titlextractor.go:55 | the normalisation every title goes through: `NormalizeShape`, `NormalizeKeepsFields`, `NormalizeFixedPoints` and `NormalizeIdempotent` state what it returns |
| `Whitespace.NormalizeShape` | titlextractor.go:55 | a normalised title has no leading or trailing white space, and its only white space is single spaces between words |
| `Whitespace.NormalizeKeepsFields` | titlextractor.go:55 | normalisation keeps the input's words, in order |
| `Whitespace.NormalizeFixedPoints` | titlextractor.go:55 | normalisation leaves a string unchanged exactly when the string is already single-spaced |
| `Whitespace.NormalizeIdempotent` | titlextractor.go:55 | normalising twice gives the same result as normalising once |
| `Whitespace.NormalizeCollapsesRun` | titlextractor.go:55 | `"Hello   World"` normalises to `"Hello World"` |
| `Title.RawTitle` | titlextractor.go:36-54 | the value the scanning loop leaves in `title`, as a recursive definition; `SkipsToFirstStop`, `PlaceholderOnCleanEnd`, `ErrorTextOnFailure`, `FirstTitleWins` and `LaterTokensIgnored` state what it is |
| `Title.TitleOf` | titlextractor.go:33-56 | what `getTitle` returns: the normalised `RawTitle`; `GetTitle` is proved to compute it |
| `Title.TokenAtOfSuffix` | titlextractor.go:38-49 | reading a suffix of the token stream from position `j` gives the token at `k + j` of the whole stream, past the end (EOF) included |
| `Title.GetTitle` | titlextractor.go:33-56 | the scanning loop (stop at an error or at the first `title` start tag, take the next token's `Data`, normalise) returns `TitleOf(tokens)` |
| `Title.SkipsToFirstStop` | titlextractor.go:37-54 | tokens that are neither errors nor a `title` start tag are skipped without effect |
| `Title.PlaceholderOnCleanEnd` | titlextractor.go:36-42 | if input ends cleanly (an EOF error or no more tokens) before any `title` start tag, the result is exactly `"<title> tag missing"` |
| `Title.ErrorTextOnFailure` | titlextractor.go:39-44 | if a non-EOF error comes before any `title` start tag, the result is that error's message, normalised |
| `Title.FirstTitleWins` | titlextractor.go:46-51 | the first `title` start tag decides the result: it is the normalised `Data` of the token right after that tag |
| `Title.LaterTokensIgnored` | titlextractor.go:37-54 | tokens after the one that stops the scan, and after the token following it, never change the result |
| `Title.PlaceholderIsNormal` | titlextractor.go:55 | normalisation leaves the placeholder text unchanged |
| `Title.EmptyTitleElementYieldsTagName` | titlextractor.go:48-50 | a `title` start tag followed directly by its end tag yields `"title"` |
| `Title.TitleTagAtEndYieldsEmpty` | titlextractor.go:49-50 | a `title` start tag as the last token yields `""`, not the placeholder |
| `Title.SampleDocument` | titlextractor.go:33-55 | the tokens of `<html><head><title>Hello   World</title></head></html>` yield `"Hello World"` |
| `Status.ColorForStatusCode` | titlextractor.go:87-100 | 200–299 map to green, 300–399 to yellow and 400–499 to orange. Every code from 500 up maps to magenta, with no upper bound. Every code below 200, including 0 and negative codes, maps to reset |
| `Status.AnsiCode` | titlextractor.go:20-26 | every colour constant is an escape sequence starting with ESC and `[`; `AnsiCodeInjective` and `MagentaPrefixUnique` tell them apart |
| `Status.AnsiCodeInjective` | titlextractor.go:20-26 | distinct colours have distinct escape sequences |
| `Status.MagentaPrefixUnique` | titlextractor.go:20-26 | every escape other than magenta differs from the magenta escape in its third or fourth character |
| `Status.ColorIsByStatusClass` | titlextractor.go:87-100 | for a three-digit code, the colour depends only on the leading digit |
| `Decimal.IntToDecimal` | titlextractor.go:157 | `%d` gives a non-empty text of digits with a leading minus sign exactly for a negative number. It has no leading zeros: a text starting with `0` is `"0"` itself, and the digit after a minus sign is never `0`. `IntToDecimalRoundTrip` proves it reads back as the number |
| `Decimal.ParseNatOfDecimal` | titlextractor.go:157 | reading back the decimal digits of a natural number gives that number |
| `Decimal.IntToDecimalRoundTrip` | titlextractor.go:157 | `%d` renders an integer as an optional minus sign (present exactly for negative numbers) followed by digits, and parsing the text gives the integer back |
| `Pipeline.FilterLines` | titlextractor.go:117-122 | the URLs the producer pushes, as a recursive definition; `UrlSource`, `NonBlankLineBecomesUrl`, `FilterAppend`, `BlankLineDropped` and `NonBlankLineKept` state which they are and in what order |
| `Pipeline.ReadUrls` | titlextractor.go:117-122 | the producer loop pushes exactly `FilterLines(lines)`: each line trimmed, empty ones dropped |
| `Pipeline.UrlsAreTrimmedAndNonEmpty` | titlextractor.go:118-120 | every URL pushed is non-empty, has no surrounding white space, and is its own trimmed form |
| `Pipeline.UrlSource` | titlextractor.go:117-122 | every URL pushed is non-empty and is the trimmed form of some input line |
| `Pipeline.NonBlankLineBecomesUrl` | titlextractor.go:117-122 | the trimmed form of every non-blank input line is pushed; with `UrlSource` this makes a string a URL exactly when it is a non-empty trimmed input line |
| `Pipeline.FilterAppend` | titlextractor.go:117-122 | the URLs of two blocks of input are those of the first block followed by those of the second, so input order is kept |
| `Pipeline.BlankLineDropped` | titlextractor.go:118-119 | an empty or white-space-only line adds no URL |
| `Pipeline.NonBlankLineKept` | titlextractor.go:118-121 | a non-blank line adds its trimmed form, between the URLs of the lines before it and those after it |
| `Pipeline.SampleInput` | titlextractor.go:117-122 | the input lines `http://example.com`, `""`, `"  "`, `http://bad.invalid` give exactly the two URLs |
| `Pipeline.ResultFor` | titlextractor.go:60-83 | each record carries its URL and never holds both a non-empty title and a non-empty error. A failed request leaves the error's message in `err`, the title `""` and the code 0. A response leaves `err` empty, stores the status code and stores the extracted title |
| `Pipeline.HandleUrl` | titlextractor.go:61-83 | the record built field by field (URL first, then the error, or the code and then the title from `getTitle`) equals `ResultFor(url, outcome)` |
| `Pipeline.Work` | titlextractor.go:60-84 | the worker loop yields exactly one result per URL taken; the i-th result carries the i-th URL and is `ResultFor` of that URL's outcome |
| `Pipeline.SuccessTitleIsNormal` | titlextractor.go:81-82 | a successful result's title is trimmed and single-spaced |
| `Pipeline.Present` | titlextractor.go:152-158 | the result loop prints exactly one line per result, `FormatLine` of it, in the order the results arrive |
| `Pipeline.FormatLine` | titlextractor.go:153-158 | the two `Printf` formats of an output line; `ErrorLineIff`, `StatusLineIsNotErrorLine`, `ErrorLineIgnoresCode` and `StatusLineCarriesCode` state what a line holds |
| `Pipeline.ErrorLineIff` | titlextractor.go:154-158 | a line starts with magenta followed by `[Error] ` exactly when its result's `err` is non-empty |
| `Pipeline.StatusLineIsNotErrorLine` | titlextractor.go:154-157 | a line for a result with an empty `err` never starts like an error line, even when it is printed in magenta |
| `Pipeline.ErrorLineIgnoresCode` | titlextractor.go:153-155 | when `err` is non-empty the line is the same whatever the status code |
| `Pipeline.StatusLineCarriesCode` | titlextractor.go:157 | a status line starts with the colour of the code's class and `[`. The text from there up to the first `]` reads back as the status code, and the line ends with `": "`, the title, the reset code and a newline |
| `Pipeline.Run` | titlextractor.go:116-158 | with at least one worker, reading, fetching and printing give one output line per non-blank input line: the i-th line formats the result for the i-th URL |

## Left out

- Concurrency: the goroutines, the channels and their capacities, and the `sync.WaitGroup` (titlextractor.go:107-108, 116-150) are not modelled. The pipeline runs one URL at a time, so results and lines come out in input order; the real program makes no promise about output order.
- Network: the HTTP client, its timeouts, the per-request context, the dialer and the TLS settings (titlextractor.go:63-73, 132-141) are not modelled. Each fetch is an abstract `FetchOutcome` that the caller supplies. That includes a body whose reading fails after the context is cancelled: it is supplied as a `Response` whose tokens end in `ErrorToken(ReadFailure("context canceled"))`. `Run` and `Work` require exactly one outcome per URL.
- HTML tokenizer: `golang.org/x/net/html` is not part of this model. A body is the token sequence it would yield, and the model does not capture raw-text handling inside `<title>`, tag-name lower-casing or attributes.
- Closing the response body (titlextractor.go:34) is resource release and is not modelled.
- Line reading: `bufio.Scanner`'s line splitting, its 1 MiB line limit and the diagnostic written to standard error (titlextractor.go:110-114, 123-125) are input I/O. The model takes the lines read before reading stops as its input.
- Flag parsing and the worker count (titlextractor.go:103-105, 129-130, 143-145) are not modelled. With a count of at least 1 the count only sets how many workers run at once.
- Run: the model stands for a run with at least one worker. The count is never validated. With `-c 0` the channels at titlextractor.go:107-108 are unbuffered and no worker starts (lines 143-145), so `wg.Wait()` returns at once, `results` is closed and nothing is printed while the producer blocks at line 120. With a negative count, `make` at line 107 panics. `Run`'s one line per URL does not hold in either case.
- Printing: the model produces each output line as a string, trailing newline included, instead of writing it to standard output.
- Strings: Go strings are bytes, but the model's strings are sequences of Unicode scalar values. So how `Fields` and `TrimSpace` treat invalid UTF-8 is not modelled.
- Integer width: status codes are Go `int` values, modelled as unbounded integers. Real HTTP status codes are three-digit numbers, so wrap-around never comes into play.
