/**
 Title extraction (`getTitle`). The HTML tokenizer is taken as given: a
 response body is the finite sequence of tokens it yields, and once that
 sequence is used up the tokenizer reports end of input.
 */
module Title {
  import opened Whitespace

  /** What `tokenizer.Err()` reports with an error token. */
  datatype ScanError = EOF | ReadFailure(message: string)

  /** The token types of the tokenizer other than the error token. */
  datatype TokenType = TextToken | StartTagToken | EndTagToken | SelfClosingTagToken | CommentToken | DoctypeToken

  /** A token: the error token with its error, or a token with its type and its
      `Data` (the tag name of a tag, the text of text, comments and doctypes). */
  datatype Token = ErrorToken(err: ScanError) | DataToken(tokenType: TokenType, data: string)

  /** The text returned when no title start tag is met before the end of input. */
  const Placeholder: string := "<title> tag missing"

  /** `tokenizer.Token().Data`: empty for the error token. */
  function Data(t: Token): string {
    if t.ErrorToken? then "" else t.data
  }

  /** The token `Next` yields at position `i`: past the end, end of input. */
  function TokenAt(tokens: seq<Token>, i: nat): Token {
    if i < |tokens| then tokens[i] else ErrorToken(EOF)
  }

  /** Reading a suffix of the tokens from position `j` is reading the whole
      sequence from `k + j`, past the end included. */
  lemma TokenAtOfSuffix(tokens: seq<Token>, k: nat, j: nat)
    requires k <= |tokens|
    ensures TokenAt(tokens[k..], j) == TokenAt(tokens, k + j)
  {
  }

  predicate IsTitleTag(t: Token) {
    t == DataToken(StartTagToken, "title")
  }

  /** The tokens at which the scanning loop stops. */
  predicate Stops(t: Token) {
    t.ErrorToken? || IsTitleTag(t)
  }

  /** No token before position `k` stops the scan. */
  predicate NoStopBefore(tokens: seq<Token>, k: nat)
    requires k <= |tokens|
  {
    forall j :: 0 <= j < k ==> !Stops(tokens[j])
  }

  /** The value the scanning loop leaves in `title`: decided by the first
      token that stops the scan. */
  function RawTitle(tokens: seq<Token>): string {
    if tokens == [] then Placeholder
    else match tokens[0]
      case ErrorToken(EOF) => Placeholder
      case ErrorToken(ReadFailure(message)) => message
      case DataToken(tokenType, data) =>
        if tokenType == StartTagToken && data == "title" then Data(TokenAt(tokens, 1))
        else RawTitle(tokens[1..])
  }

  /** What `getTitle` returns for a body that tokenizes to `tokens`. */
  function TitleOf(tokens: seq<Token>): string {
    Normalize(RawTitle(tokens))
  }

  /** `getTitle`: read tokens until an error or the first title start tag,
      then normalise what was found. */
  method GetTitle(tokens: seq<Token>) returns (title: string)
    ensures title == TitleOf(tokens)
  {
    var i := 0;
    title := Placeholder;
    while true
      invariant i <= |tokens|
      invariant RawTitle(tokens[i..]) == RawTitle(tokens)
      invariant title == Placeholder
      decreases |tokens| - i
    {
      var token := TokenAt(tokens, i);
      if token.ErrorToken? {
        if token.err == EOF {
          break;
        }
        title := token.err.message;
        break;
      }
      if token.tokenType == StartTagToken && token.data == "title" {
        title := Data(TokenAt(tokens, i + 1));
        TokenAtOfSuffix(tokens, i, 1);
        break;
      }
      assert tokens[i..][1..] == tokens[i + 1..];
      i := i + 1;
    }
    title := Normalize(title);
  }

  // ---------------------------------------------------------------------
  // Properties of the extraction

  /** Tokens that do not stop the scan are skipped. */
  lemma {:induction false} SkipsToFirstStop(tokens: seq<Token>, k: nat)
    requires k <= |tokens| && NoStopBefore(tokens, k)
    ensures RawTitle(tokens) == RawTitle(tokens[k..])
  {
    if k > 0 {
      assert !Stops(tokens[0]);
      assert tokens[1..][k - 1..] == tokens[k..];
      SkipsToFirstStop(tokens[1..], k - 1);
    }
  }

  /** A stream that ends cleanly before any title start tag yields the placeholder. */
  lemma PlaceholderOnCleanEnd(tokens: seq<Token>, k: nat)
    requires k <= |tokens| && NoStopBefore(tokens, k)
    requires k == |tokens| || tokens[k] == ErrorToken(EOF)
    ensures TitleOf(tokens) == Placeholder
  {
    SkipsToFirstStop(tokens, k);
    PlaceholderIsNormal();
  }

  /** A read failure before any title start tag yields its message, normalised. */
  lemma ErrorTextOnFailure(tokens: seq<Token>, k: nat)
    requires k < |tokens| && NoStopBefore(tokens, k)
    requires tokens[k].ErrorToken? && tokens[k].err.ReadFailure?
    ensures TitleOf(tokens) == Normalize(tokens[k].err.message)
  {
    SkipsToFirstStop(tokens, k);
  }

  /** The first title start tag decides the title: it is the normalised `Data`
      of the token right after it. */
  lemma FirstTitleWins(tokens: seq<Token>, k: nat)
    requires k < |tokens| && NoStopBefore(tokens, k) && IsTitleTag(tokens[k])
    ensures TitleOf(tokens) == Normalize(Data(TokenAt(tokens, k + 1)))
  {
    SkipsToFirstStop(tokens, k);
    TokenAtOfSuffix(tokens, k, 1);
  }

  /** Nothing the tokenizer yields after the token that stops the scan, and the
      one following it, affects the title. */
  lemma LaterTokensIgnored(tokens: seq<Token>, k: nat, later: seq<Token>)
    requires k < |tokens| && NoStopBefore(tokens, k) && Stops(tokens[k])
    ensures TitleOf(tokens[..k + 1] + [TokenAt(tokens, k + 1)] + later) == TitleOf(tokens)
  {
    var other := tokens[..k + 1] + [TokenAt(tokens, k + 1)] + later;
    assert other[k] == tokens[k];
    assert NoStopBefore(other, k) by {
      forall j | 0 <= j < k ensures !Stops(other[j]) {
        assert other[j] == tokens[j];
      }
    }
    SkipsToFirstStop(tokens, k);
    SkipsToFirstStop(other, k);
    TokenAtOfSuffix(tokens, k, 1);
    TokenAtOfSuffix(other, k, 1);
    assert TokenAt(other, k + 1) == TokenAt(tokens, k + 1);
  }

  /** The placeholder is already in normal form. */
  lemma PlaceholderIsNormal()
    ensures Normalize(Placeholder) == Placeholder
  {
    assert SingleSpaced(Placeholder) by {
      forall i | 0 <= i < |Placeholder| && IsSpace(Placeholder[i])
        ensures Placeholder[i] == ' ' && 0 < i < |Placeholder| - 1
          && !IsSpace(Placeholder[i - 1]) && !IsSpace(Placeholder[i + 1])
      {
        assert i == 7 || i == 11;
      }
    }
    NormalizeFixedPoints(Placeholder);
  }

  /** An empty title element yields the text "title": the token after the
      start tag is the end tag, whose `Data` is the tag name. */
  lemma EmptyTitleElementYieldsTagName(later: seq<Token>)
    ensures TitleOf([DataToken(StartTagToken, "title"), DataToken(EndTagToken, "title")] + later) == "title"
  {
    var tokens := [DataToken(StartTagToken, "title"), DataToken(EndTagToken, "title")] + later;
    assert RawTitle(tokens) == "title" by {
      assert tokens[0] == DataToken(StartTagToken, "title") && TokenAt(tokens, 1) == DataToken(EndTagToken, "title");
    }
    assert SingleSpaced("title");
    NormalizeFixedPoints("title");
  }

  /** A title start tag with nothing after it yields the empty string, not
      the placeholder. */
  lemma TitleTagAtEndYieldsEmpty(tokens: seq<Token>)
    requires |tokens| > 0 && NoStopBefore(tokens, |tokens| - 1) && IsTitleTag(tokens[|tokens| - 1])
    ensures TitleOf(tokens) == ""
  {
    FirstTitleWins(tokens, |tokens| - 1);
  }

  /** `<html><head><title>Hello   World</title></head></html>` yields "Hello World". */
  lemma SampleDocument()
    ensures TitleOf([
      DataToken(StartTagToken, "html"), DataToken(StartTagToken, "head"), DataToken(StartTagToken, "title"),
      DataToken(TextToken, "Hello   World"), DataToken(EndTagToken, "title"), DataToken(EndTagToken, "head"),
      DataToken(EndTagToken, "html"), ErrorToken(EOF)]) == "Hello World"
  {
    var tokens := [
      DataToken(StartTagToken, "html"), DataToken(StartTagToken, "head"), DataToken(StartTagToken, "title"),
      DataToken(TextToken, "Hello   World"), DataToken(EndTagToken, "title"), DataToken(EndTagToken, "head"),
      DataToken(EndTagToken, "html"), ErrorToken(EOF)];
    assert NoStopBefore(tokens, 2) by {
      assert !Stops(tokens[0]) && !Stops(tokens[1]);
    }
    FirstTitleWins(tokens, 2);
    assert Data(TokenAt(tokens, 3)) == "Hello   World";
    NormalizeCollapsesRun();
  }
}
