/**
 The fetch-and-extract pipeline, run one URL at a time: the line filter that
 turns input lines into URLs, the per-URL work that turns a fetch outcome
 into a `result` record, and the presenter that formats one output line per
 record.
 */
module Pipeline {
  import opened Whitespace
  import opened Decimal
  import opened Status
  import opened Title

  /** The `result` record of one URL. */
  datatype Result = Result(url: string, title: string, err: string, responseCode: int)

  /** What the attempt to fetch one URL yields. */
  datatype FetchOutcome =
    | BadRequest(message: string)            // building the request failed
    | TransportError(message: string)        // sending it failed, timeouts included
    | Response(statusCode: int, body: seq<Token>)  // a response; its body as tokens

  // ---------------------------------------------------------------------
  // Input lines to URLs

  /** The URLs the producer pushes for the given input lines: each line
      trimmed, the empty ones dropped, in input order. */
  function FilterLines(lines: seq<string>): seq<string> {
    if lines == [] then []
    else
      var line := TrimSpace(lines[|lines| - 1]);
      FilterLines(lines[..|lines| - 1]) + (if line != "" then [line] else [])
  }

  /** The producer loop: trim each line and push it unless it is empty. */
  method ReadUrls(lines: seq<string>) returns (urls: seq<string>)
    ensures urls == FilterLines(lines)
  {
    urls := [];
    for i := 0 to |lines|
      invariant urls == FilterLines(lines[..i])
    {
      var line := TrimSpace(lines[i]);
      if line != "" {
        urls := urls + [line];
      }
      assert lines[..i + 1][..i] == lines[..i];
    }
    assert lines[..|lines|] == lines;
  }

  /** Every URL comes from an input line: it is the trimmed form of one of
      them, and it is not empty. */
  lemma {:induction false} UrlSource(lines: seq<string>, u: string) returns (i: nat)
    requires u in FilterLines(lines)
    ensures i < |lines| && TrimSpace(lines[i]) == u && u != ""
  {
    var init := lines[..|lines| - 1];
    if u in FilterLines(init) {
      i := UrlSource(init, u);
      assert lines[i] == init[i];
    } else {
      i := |lines| - 1;
    }
  }

  /** Every URL is non-empty and has no surrounding white space. */
  lemma UrlsAreTrimmedAndNonEmpty(lines: seq<string>)
    ensures forall u :: u in FilterLines(lines) ==> u != "" && Trimmed(u) && TrimSpace(u) == u
  {
    forall u | u in FilterLines(lines)
      ensures u != "" && Trimmed(u) && TrimSpace(u) == u
    {
      var i := UrlSource(lines, u);
      var _ := TrimSpaceSpec(lines[i]);
      TrimSpaceIdempotent(lines[i]);
    }
  }

  /** Filtering works line by line: the URLs of two blocks of input are the
      URLs of the first followed by those of the second, so the relative
      order of the lines is kept. */
  lemma {:induction false} FilterAppend(a: seq<string>, b: seq<string>)
    ensures FilterLines(a + b) == FilterLines(a) + FilterLines(b)
    decreases |b|
  {
    if b == [] {
      assert a + b == a;
    } else {
      var b' := b[..|b| - 1];
      assert (a + b)[..|a + b| - 1] == a + b';
      FilterAppend(a, b');
    }
  }

  lemma FilterSingle(line: string)
    ensures FilterLines([line]) == if TrimSpace(line) != "" then [TrimSpace(line)] else []
  {
    assert [line][..0] == [];
  }

  /** A line that is empty or white space only contributes no URL. */
  lemma BlankLineDropped(before: seq<string>, line: string, after: seq<string>)
    requires forall i :: 0 <= i < |line| ==> IsSpace(line[i])
    ensures FilterLines(before + [line] + after) == FilterLines(before + after)
  {
    TrimSpaceEmptyIff(line);
    FilterSingle(line);
    var withLine := before + [line];
    FilterAppend(withLine, after);
    FilterAppend(before, [line]);
    FilterAppend(before, after);
    calc {
      FilterLines(withLine + after);
      FilterLines(withLine) + FilterLines(after);
      FilterLines(before) + FilterLines([line]) + FilterLines(after);
      { assert FilterLines(before) + [] == FilterLines(before); }
      FilterLines(before) + FilterLines(after);
    }
  }

  /** A line that is not blank contributes its trimmed form, between the URLs
      of the lines before it and those of the lines after it. */
  lemma NonBlankLineKept(before: seq<string>, line: string, after: seq<string>)
    requires TrimSpace(line) != ""
    ensures FilterLines(before + [line] + after) == FilterLines(before) + [TrimSpace(line)] + FilterLines(after)
  {
    FilterSingle(line);
    var withLine := before + [line];
    FilterAppend(withLine, after);
    FilterAppend(before, [line]);
  }

  lemma SplitAt<T>(s: seq<T>, i: nat)
    requires i < |s|
    ensures s == s[..i] + [s[i]] + s[i + 1..]
  {
    assert s == s[..i] + s[i..];
  }

  /** Every non-blank input line becomes a URL. */
  lemma NonBlankLineBecomesUrl(lines: seq<string>, i: nat)
    requires i < |lines| && TrimSpace(lines[i]) != ""
    ensures TrimSpace(lines[i]) in FilterLines(lines)
  {
    var before, line, after := lines[..i], lines[i], lines[i + 1..];
    SplitAt(lines, i);
    NonBlankLineKept(before, line, after);
    var urls := FilterLines(before) + [TrimSpace(line)] + FilterLines(after);
    assert urls[|FilterLines(before)|] == TrimSpace(line);
  }

  // ---------------------------------------------------------------------
  // One URL to one result

  /** The record built for `url` from the outcome of fetching it. */
  function ResultFor(url: string, outcome: FetchOutcome): (r: Result)
    ensures r.url == url
    ensures r.title == "" || r.err == ""
    ensures !outcome.Response? ==> r.err == outcome.message && r.title == "" && r.responseCode == 0
    ensures outcome.Response? ==>
      r.err == "" && r.responseCode == outcome.statusCode && r.title == TitleOf(outcome.body)
  {
    match outcome
    case BadRequest(message) => Result(url, "", message, 0)
    case TransportError(message) => Result(url, "", message, 0)
    case Response(statusCode, body) => Result(url, TitleOf(body), "", statusCode)
  }

  /** The body of the worker loop for one URL: start a record with the URL,
      then set the error, or the status code and the title. */
  method HandleUrl(url: string, outcome: FetchOutcome) returns (res: Result)
    ensures res == ResultFor(url, outcome)
  {
    res := Result(url, "", "", 0);
    match outcome {
      case BadRequest(message) =>
        res := res.(err := message);
      case TransportError(message) =>
        res := res.(err := message);
      case Response(statusCode, body) =>
        res := res.(responseCode := statusCode);
        var title := GetTitle(body);
        res := res.(title := title);
    }
  }

  /** The worker loop: one result for each URL taken, carrying that URL. */
  method Work(urls: seq<string>, outcomes: seq<FetchOutcome>) returns (results: seq<Result>)
    requires |outcomes| == |urls|
    ensures |results| == |urls|
    ensures forall i :: 0 <= i < |urls| ==> results[i].url == urls[i]
    ensures forall i :: 0 <= i < |urls| ==> results[i] == ResultFor(urls[i], outcomes[i])
  {
    results := [];
    for i := 0 to |urls|
      invariant |results| == i
      invariant forall j :: 0 <= j < i ==> results[j] == ResultFor(urls[j], outcomes[j])
    {
      var res := HandleUrl(urls[i], outcomes[i]);
      results := results + [res];
    }
  }

  /** The title of a successful fetch is in normal form. */
  lemma SuccessTitleIsNormal(url: string, statusCode: int, body: seq<Token>)
    ensures var r := ResultFor(url, Response(statusCode, body));
      Trimmed(r.title) && SingleSpaced(r.title)
  {
    NormalizeShape(RawTitle(body));
  }

  // ---------------------------------------------------------------------
  // Results to output lines

  const ErrorPrefix: string := AnsiCode(Magenta) + "[Error] "

  /** The line printed for one result. */
  function FormatLine(r: Result): string {
    if r.err != "" then
      ErrorPrefix + r.url + ": " + r.err + AnsiCode(Reset) + "\n"
    else
      AnsiCode(ColorForStatusCode(r.responseCode)) + "[" + IntToDecimal(r.responseCode) + "] "
        + r.url + ": " + r.title + AnsiCode(Reset) + "\n"
  }

  predicate IsErrorLine(line: string) {
    ErrorPrefix <= line
  }

  /** The consumer loop: one line per result, in the order the results come. */
  method Present(results: seq<Result>) returns (lines: seq<string>)
    ensures |lines| == |results|
    ensures forall i :: 0 <= i < |results| ==> lines[i] == FormatLine(results[i])
  {
    lines := [];
    for i := 0 to |results|
      invariant |lines| == i
      invariant forall j :: 0 <= j < i ==> lines[j] == FormatLine(results[j])
    {
      var line := FormatLine(results[i]);
      lines := lines + [line];
    }
  }

  lemma PrefixOfConcat(p: string, s: string, t: string)
    requires p <= s
    ensures p <= s + t
  {
    assert (s + t)[..|s|] == s;
  }

  /** A line for a result without an error does not look like an error line:
      it differs from the error prefix in the colour code or, for magenta, in
      the first character after the bracket. */
  lemma StatusLineIsNotErrorLine(r: Result)
    requires r.err == ""
    ensures !IsErrorLine(FormatLine(r))
  {
    var c := ColorForStatusCode(r.responseCode);
    var code := AnsiCode(c);
    var digits := IntToDecimal(r.responseCode);
    var lead := code + "[" + digits;
    var line := FormatLine(r);
    assert lead <= line by {
      var x := lead + "] ";
      PrefixOfConcat(lead, lead, "] ");
      PrefixOfConcat(lead, x, r.url);
      PrefixOfConcat(lead, x + r.url, ": ");
      PrefixOfConcat(lead, x + r.url + ": ", r.title);
      PrefixOfConcat(lead, x + r.url + ": " + r.title, AnsiCode(Reset));
      PrefixOfConcat(lead, x + r.url + ": " + r.title + AnsiCode(Reset), "\n");
    }
    if c == Magenta {
      assert lead[6] == digits[0];
      assert lead[6] != ErrorPrefix[6];
    } else {
      MagentaPrefixUnique(c);
      assert lead[2] != ErrorPrefix[2] || lead[3] != ErrorPrefix[3];
    }
  }

  /** A line is an error line exactly when its result carries an error. */
  lemma ErrorLineIff(r: Result)
    ensures IsErrorLine(FormatLine(r)) <==> r.err != ""
  {
    if r.err != "" {
      var x := ErrorPrefix;
      PrefixOfConcat(x, x, r.url);
      PrefixOfConcat(x, x + r.url, ": ");
      PrefixOfConcat(x, x + r.url + ": ", r.err);
      PrefixOfConcat(x, x + r.url + ": " + r.err, AnsiCode(Reset));
      PrefixOfConcat(x, x + r.url + ": " + r.err + AnsiCode(Reset), "\n");
    } else {
      StatusLineIsNotErrorLine(r);
    }
  }

  /** An error line does not depend on the status code. */
  lemma ErrorLineIgnoresCode(r: Result, statusCode: int)
    requires r.err != ""
    ensures FormatLine(r) == FormatLine(r.(responseCode := statusCode))
  {
  }

  /** The text up to the first occurrence of `c`. */
  function UpTo(s: string, c: char): (p: string)
    ensures p <= s
    ensures c !in p
    ensures |p| < |s| ==> s[|p|] == c
  {
    if s == [] || s[0] == c then [] else [s[0]] + UpTo(s[1..], c)
  }

  lemma {:induction false} UpToDelimiter(p: string, c: char, rest: string)
    requires c !in p
    ensures UpTo(p + [c] + rest, c) == p
  {
    if p != [] {
      assert (p + [c] + rest)[1..] == p[1..] + [c] + rest;
      UpToDelimiter(p[1..], c, rest);
    }
  }

  /** A status line starts with the colour of the code's class and an opening
      bracket; the text from there to the first closing bracket reads back as
      the status code; after ": " comes the title and the line ends with the
      reset code. */
  lemma StatusLineCarriesCode(r: Result)
    requires r.err == ""
    ensures var line := FormatLine(r);
      var lead := AnsiCode(ColorForStatusCode(r.responseCode)) + "[";
      var field := UpTo(line[|lead|..], ']');
      && lead <= line
      && (field != [] && field[0] == '-' ==> AllDigits(field[1..]))
      && (field == [] || field[0] != '-' ==> AllDigits(field))
      && ParseInt(field) == r.responseCode
      && var tail := ": " + r.title + AnsiCode(Reset) + "\n";
         |tail| <= |line| && line[|line| - |tail|..] == tail
  {
    var line := FormatLine(r);
    var color := AnsiCode(ColorForStatusCode(r.responseCode));
    var lead := color + "[";
    var digits := IntToDecimal(r.responseCode);
    var tail := ": " + r.title + AnsiCode(Reset) + "\n";
    IntToDecimalRoundTrip(r.responseCode);
    assert forall k :: 0 <= k < |digits| ==> digits[k] != ']';
    StatusLineLayout(color, digits, r.url, r.title, AnsiCode(Reset));
    UpToDelimiter(digits, ']', " " + r.url + tail);
  }

  /** How the pieces of a status line group. */
  lemma StatusLineLayout(color: string, digits: string, url: string, title: string, reset: string)
    ensures var line := color + "[" + digits + "] " + url + ": " + title + reset + "\n";
      var tail := ": " + title + reset + "\n";
      && color + "[" <= line
      && line[|color + "["|..] == digits + [']'] + (" " + url + tail)
      && line == (color + "[" + digits + "] " + url) + tail
  {
    var line := color + "[" + digits + "] " + url + ": " + title + reset + "\n";
    var tail := ": " + title + reset + "\n";
    assert line == (color + "[") + (digits + [']'] + (" " + url + tail));
  }

  // ---------------------------------------------------------------------
  // The whole run

  /** The pipeline run URL by URL: read the URLs, fetch and extract each one,
      and print one line per result. */
  method Run(input: seq<string>, outcomes: seq<FetchOutcome>) returns (output: seq<string>)
    requires |outcomes| == |FilterLines(input)|
    ensures |output| == |FilterLines(input)|
    ensures forall i :: 0 <= i < |output| ==>
      output[i] == FormatLine(ResultFor(FilterLines(input)[i], outcomes[i]))
  {
    var urls := ReadUrls(input);
    var results := Work(urls, outcomes);
    output := Present(results);
  }

  /** Blank lines in the input produce neither a URL nor a result. */
  lemma SampleInput()
    ensures FilterLines(["http://example.com", "", "  ", "http://bad.invalid"])
      == ["http://example.com", "http://bad.invalid"]
  {
    var a, b := "http://example.com", "http://bad.invalid";
    assert Trimmed(a) && Trimmed(b);
    TrimSpaceOfTrimmed(a);
    TrimSpaceOfTrimmed(b);
    TrimSpaceEmptyIff("");
    TrimSpaceEmptyIff("  ");
    var lines := [a, "", "  ", b];
    assert lines[..3] == [a, "", "  "];
    assert lines[..3][..2] == [a, ""];
    assert lines[..3][..2][..1] == [a];
    FilterSingle(a);
    assert FilterLines([a, ""]) == [a];
    assert FilterLines([a, "", "  "]) == [a];
    assert FilterLines(lines) == [a] + [b];
  }
}
