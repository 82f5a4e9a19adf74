/**
 The colour an output line is printed in, chosen by the HTTP status class,
 and the ANSI escape sequences the tool writes for each colour.
 */
module Status {

  datatype Color = Reset | Green | Yellow | Orange | Magenta

  /** The escape sequence of each colour constant. */
  function AnsiCode(c: Color): (s: string)
    ensures |s| >= 4 && s[0] == '\U{1B}' && s[1] == '['
  {
    match c
    case Reset => "\U{1B}[0m"
    case Green => "\U{1B}[32m"
    case Yellow => "\U{1B}[33m"
    case Orange => "\U{1B}[33;1m"
    case Magenta => "\U{1B}[35m"
  }

  /** `colorForStatusCode`: 2xx green, 3xx yellow, 4xx orange, every code from
      500 up magenta, and everything below 200 (the zero code of a failed
      request and negative values included) the reset colour. */
  function ColorForStatusCode(statusCode: int): (c: Color)
    ensures c == Green <==> 200 <= statusCode < 300
    ensures c == Yellow <==> 300 <= statusCode < 400
    ensures c == Orange <==> 400 <= statusCode < 500
    ensures c == Magenta <==> 500 <= statusCode
    ensures c == Reset <==> statusCode < 200
  {
    if statusCode >= 200 && statusCode < 300 then Green
    else if statusCode >= 300 && statusCode < 400 then Yellow
    else if statusCode >= 400 && statusCode < 500 then Orange
    else if statusCode >= 500 then Magenta
    else Reset
  }

  /** Distinct colours are written as distinct escape sequences. */
  lemma AnsiCodeInjective(c: Color, d: Color)
    requires c != d
    ensures AnsiCode(c) != AnsiCode(d)
  {
    var a, b := AnsiCode(c), AnsiCode(d);
    assert a[2] != b[2] || a[3] != b[3] || |a| != |b|;
  }

  /** Every escape other than magenta differs from it in its third or fourth
      character, so the magenta escape can be recognised at the start of a line. */
  lemma MagentaPrefixUnique(c: Color)
    requires c != Magenta
    ensures AnsiCode(c)[2] != '3' || AnsiCode(c)[3] != '5'
  {
  }

  /** Within one status class every code has the colour of the class: the
      colour is a function of the leading digit of a three-digit code. */
  lemma ColorIsByStatusClass(statusCode: int)
    requires 100 <= statusCode < 1000
    ensures ColorForStatusCode(statusCode) == ColorForStatusCode(statusCode / 100 * 100)
  {
  }
}
