/**
 The string functions the title extractor uses from Go's `strings` package:
 `Fields`, `Join` and `TrimSpace`, and the normalisation built from them,
 `TrimSpace(Join(Fields(s), " "))`.
 */
module Whitespace {

  /** Go's `unicode.IsSpace`: the Latin-1 white space characters and the
      Unicode White_Space characters above Latin-1. */
  predicate IsSpace(c: char) {
    || c == ' ' || c == '\t' || c == '\n' || c == '\U{000B}' || c == '\U{000C}' || c == '\r'
    || c == '\U{0085}' || c == '\U{00A0}' || c == '\U{1680}'
    || ('\U{2000}' <= c <= '\U{200A}')
    || c == '\U{2028}' || c == '\U{2029}' || c == '\U{202F}' || c == '\U{205F}' || c == '\U{3000}'
  }

  predicate NoSpace(s: string) {
    forall i :: 0 <= i < |s| ==> !IsSpace(s[i])
  }

  /** A field as `strings.Fields` returns it: a non-empty run of non-space characters. */
  predicate IsWord(w: string) {
    w != [] && NoSpace(w)
  }

  predicate AllWords(ws: seq<string>) {
    forall i :: 0 <= i < |ws| ==> IsWord(ws[i])
  }

  /** Neither the first nor the last character (if any) is white space. */
  predicate Trimmed(s: string) {
    s == [] || (!IsSpace(s[0]) && !IsSpace(s[|s| - 1]))
  }

  /** Every white space character is a plain space standing between two
      non-space characters: words separated by single spaces. */
  predicate SingleSpaced(s: string) {
    forall i :: 0 <= i < |s| && IsSpace(s[i]) ==>
      s[i] == ' ' && 0 < i < |s| - 1 && !IsSpace(s[i - 1]) && !IsSpace(s[i + 1])
  }

  /** The longest prefix of `s` that holds no white space. */
  function Word(s: string): (w: string)
    ensures w <= s
    ensures NoSpace(w)
    ensures |w| < |s| ==> IsSpace(s[|w|])
  {
    if s == [] || IsSpace(s[0]) then [] else [s[0]] + Word(s[1..])
  }

  /** `strings.Fields`: the maximal runs of non-space characters, in order. */
  function Fields(s: string): (ws: seq<string>)
    ensures AllWords(ws)
    decreases |s|
  {
    if s == [] then []
    else if IsSpace(s[0]) then Fields(s[1..])
    else
      var w := Word(s);
      [w] + Fields(s[|w|..])
  }

  /** `strings.Join`: the elements with `sep` between each adjacent pair. */
  function Join(ws: seq<string>, sep: string): string {
    if ws == [] then ""
    else if |ws| == 1 then ws[0]
    else ws[0] + sep + Join(ws[1..], sep)
  }

  /** Drops the leading white space. */
  function TrimLeft(s: string): string {
    if s != [] && IsSpace(s[0]) then TrimLeft(s[1..]) else s
  }

  /** Drops the trailing white space. */
  function TrimRight(s: string): string {
    if s != [] && IsSpace(s[|s| - 1]) then TrimRight(s[..|s| - 1]) else s
  }

  /** `strings.TrimSpace`. */
  function TrimSpace(s: string): string {
    TrimRight(TrimLeft(s))
  }

  /** `s` with every white space character removed. */
  function Squeeze(s: string): string {
    if s == [] then ""
    else (if IsSpace(s[0]) then "" else [s[0]]) + Squeeze(s[1..])
  }

  /** The normalisation applied to every extracted title. */
  function Normalize(s: string): string {
    TrimSpace(Join(Fields(s), " "))
  }

  // ---------------------------------------------------------------------
  // TrimSpace

  /** TrimLeft removes exactly the leading white space. */
  lemma {:induction false} TrimLeftSpec(s: string)
    ensures var r := TrimLeft(s);
      && |r| <= |s| && r == s[|s| - |r|..]
      && (forall i :: 0 <= i < |s| - |r| ==> IsSpace(s[i]))
      && (r == [] || !IsSpace(r[0]))
  {
    if s != [] && IsSpace(s[0]) {
      TrimLeftSpec(s[1..]);
      var r := TrimLeft(s[1..]);
      forall i | 0 <= i < |s| - |r| ensures IsSpace(s[i]) {
        if i > 0 { assert s[i] == s[1..][i - 1]; }
      }
    }
  }

  /** TrimRight removes exactly the trailing white space. */
  lemma {:induction false} TrimRightSpec(s: string)
    ensures var r := TrimRight(s);
      && |r| <= |s| && r == s[..|r|]
      && (forall i :: |r| <= i < |s| ==> IsSpace(s[i]))
      && (r == [] || !IsSpace(r[|r| - 1]))
  {
    if s != [] && IsSpace(s[|s| - 1]) {
      var init := s[..|s| - 1];
      TrimRightSpec(init);
      var r := TrimRight(init);
      assert r == s[..|r|];
      forall i | |r| <= i < |s| ensures IsSpace(s[i]) {
        if i < |s| - 1 { assert s[i] == init[i]; }
      }
    }
  }

  /** TrimSpace removes exactly the surrounding white space: what is left is a
      slice of the input, trimmed, and everything cut off is white space. */
  lemma {:induction false} TrimSpaceSpec(s: string) returns (lo: nat)
    ensures var r := TrimSpace(s);
      && Trimmed(r)
      && lo + |r| <= |s| && r == s[lo..lo + |r|]
      && (forall i :: 0 <= i < lo ==> IsSpace(s[i]))
      && (forall i :: lo + |r| <= i < |s| ==> IsSpace(s[i]))
  {
    var l := TrimLeft(s);
    TrimLeftSpec(s);
    lo := |s| - |l|;
    var r := TrimRight(l);
    TrimRightSpec(l);
    assert TrimSpace(s) == r;
    SliceOfSuffix(s, lo, |r|);
    assert r == [] || r[0] == l[0];
    SpacesAfterSlice(s, lo, l, |r|);
  }

  /** What follows a prefix of a suffix that is followed by white space only. */
  lemma SpacesAfterSlice(s: string, lo: nat, l: string, n: nat)
    requires lo <= |s| && l == s[lo..] && n <= |l|
    requires forall i :: n <= i < |l| ==> IsSpace(l[i])
    ensures forall i :: lo + n <= i < |s| ==> IsSpace(s[i])
  {
    forall i | lo + n <= i < |s| ensures IsSpace(s[i]) {
      assert s[i] == l[i - lo];
    }
  }

  lemma SliceOfSuffix(s: string, lo: nat, n: nat)
    requires lo + n <= |s|
    ensures s[lo..][..n] == s[lo..lo + n]
  {
  }

  lemma TrimSpaceOfTrimmed(s: string)
    requires Trimmed(s)
    ensures TrimSpace(s) == s
  {
  }

  /** A trimmed string is left alone by a second trim. */
  lemma TrimSpaceIdempotent(s: string)
    ensures TrimSpace(TrimSpace(s)) == TrimSpace(s)
  {
    var _ := TrimSpaceSpec(s);
    TrimSpaceOfTrimmed(TrimSpace(s));
  }

  /** A line trims to nothing exactly when it is all white space. */
  lemma TrimSpaceEmptyIff(s: string)
    ensures TrimSpace(s) == "" <==> forall i :: 0 <= i < |s| ==> IsSpace(s[i])
  {
    var lo := TrimSpaceSpec(s);
    var r := TrimSpace(s);
    if r != "" {
      assert !IsSpace(s[lo]) by {
        assert s[lo] == r[0];
      }
    }
  }

  // ---------------------------------------------------------------------
  // Fields and Join

  lemma {:induction false} WordOfWordThenSpace(w: string, t: string)
    requires NoSpace(w)
    requires t == [] || IsSpace(t[0])
    ensures Word(w + t) == w
  {
    if w == [] {
    } else {
      assert (w + t)[1..] == w[1..] + t;
      WordOfWordThenSpace(w[1..], t);
    }
  }

  /** A word followed by nothing or by white space is split off as one field. */
  lemma FieldsOfWordThenSpace(w: string, t: string)
    requires IsWord(w)
    requires t == [] || IsSpace(t[0])
    ensures Fields(w + t) == [w] + Fields(t)
  {
    WordOfWordThenSpace(w, t);
    assert (w + t)[|w|..] == t;
  }

  lemma FieldsSkipsSpace(c: char, t: string)
    requires IsSpace(c)
    ensures Fields([c] + t) == Fields(t)
  {
    assert ([c] + t)[1..] == t;
  }

  lemma FieldsOfWordSpaceThen(w: string, t: string)
    requires IsWord(w)
    ensures Fields(w + " " + t) == [w] + Fields(t)
  {
    FieldsOfWordThenSpace(w, " " + t);
    FieldsSkipsSpace(' ', t);
    assert w + " " + t == w + (" " + t);
  }

  /** The fields are all of the input's non-space characters, in order: glued
      together without a separator they give the input with its white space
      removed. */
  lemma {:induction false} FieldsCoverNonSpace(s: string)
    ensures Join(Fields(s), "") == Squeeze(s)
    decreases |s|
  {
    if s != [] {
      if IsSpace(s[0]) {
        FieldsCoverNonSpace(s[1..]);
      } else {
        var w := Word(s);
        var t := s[|w|..];
        assert s == w + t;
        FieldsCoverNonSpace(t);
        SqueezeOfWordThen(w, t);
        if Fields(t) != [] {
          JoinCons(w, Fields(t), "");
        }
      }
    }
  }

  lemma {:induction false} SqueezeOfWordThen(w: string, t: string)
    requires NoSpace(w)
    ensures Squeeze(w + t) == w + Squeeze(t)
  {
    if w != [] {
      assert (w + t)[0] == w[0] && !IsSpace(w[0]);
      assert (w + t)[1..] == w[1..] + t;
      SqueezeOfWordThen(w[1..], t);
      assert Squeeze(w + t) == [w[0]] + Squeeze(w[1..] + t);
      assert [w[0]] + w[1..] == w;
    } else {
      assert w + t == t;
    }
  }

  lemma JoinCons(w: string, ws: seq<string>, sep: string)
    requires ws != []
    ensures Join([w] + ws, sep) == w + sep + Join(ws, sep)
  {
    assert ([w] + ws)[1..] == ws;
  }

  /** Joining words with single spaces and splitting again gives the words back. */
  lemma {:induction false} FieldsOfJoin(ws: seq<string>)
    requires AllWords(ws)
    ensures Fields(Join(ws, " ")) == ws
  {
    if |ws| == 0 {
    } else if |ws| == 1 {
      FieldsOfWordThenSpace(ws[0], []);
      assert ws[0] + [] == ws[0];
    } else {
      var rest := Join(ws[1..], " ");
      FieldsOfJoin(ws[1..]);
      FieldsOfWordSpaceThen(ws[0], rest);
      assert Join(ws, " ") == ws[0] + " " + rest;
      assert [ws[0]] + ws[1..] == ws;
    }
  }

  /** Words joined by single spaces form a single-spaced string. */
  lemma {:induction false} JoinIsSingleSpaced(ws: seq<string>)
    requires AllWords(ws)
    ensures SingleSpaced(Join(ws, " "))
    ensures ws != [] ==> Join(ws, " ") != []
  {
    if |ws| <= 1 {
    } else {
      var rest := Join(ws[1..], " ");
      JoinIsSingleSpaced(ws[1..]);
      var s := ws[0] + " " + rest;
      var n := |ws[0]|;
      assert rest != [] && !IsSpace(rest[0]) && !IsSpace(ws[0][n - 1]);
      forall i | 0 <= i < |s| && IsSpace(s[i])
        ensures s[i] == ' ' && 0 < i < |s| - 1 && !IsSpace(s[i - 1]) && !IsSpace(s[i + 1])
      {
        if i > n {
          assert s[i] == rest[i - n - 1];
          assert i - n - 1 > 0;
          assert s[i - 1] == rest[i - n - 2];
          assert s[i + 1] == rest[i - n];
        }
      }
    }
  }

  /** In a single-spaced string, the text after a space is single-spaced and
      not empty. */
  lemma SingleSpacedAfterSpace(s: string, k: nat)
    requires SingleSpaced(s) && k < |s| && IsSpace(s[k])
    ensures k + 1 < |s|
    ensures s[k] == ' ' && s == s[..k] + " " + s[k + 1..]
    ensures SingleSpaced(s[k + 1..])
  {
    var t := s[k + 1..];
    assert s == s[..k] + [s[k]] + t;
    forall i | 0 <= i < |t| && IsSpace(t[i])
      ensures t[i] == ' ' && 0 < i < |t| - 1 && !IsSpace(t[i - 1]) && !IsSpace(t[i + 1])
    {
      assert t[i] == s[k + 1 + i];
    }
  }

  /** Splitting a single-spaced string and joining it again changes nothing. */
  lemma {:induction false} JoinOfFields(s: string)
    requires SingleSpaced(s)
    ensures Join(Fields(s), " ") == s
    ensures s != [] ==> Fields(s) != []
    decreases |s|
  {
    if s != [] {
      assert !IsSpace(s[0]);
      var w := Word(s);
      var k := |w|;
      assert w == s[..k];
      assert Fields(s) == [w] + Fields(s[k..]);
      if k == |s| {
        assert s[k..] == [];
        assert w == s;
      } else {
        SingleSpacedAfterSpace(s, k);
        var t := s[k + 1..];
        assert s[k..] == [' '] + t;
        FieldsSkipsSpace(' ', t);
        JoinOfFields(t);
        JoinCons(w, Fields(t), " ");
      }
    }
  }

  // ---------------------------------------------------------------------
  // Normalisation

  /** The normalised string is trimmed and single-spaced: no leading or
      trailing white space, and no white space but single spaces between words. */
  lemma NormalizeShape(s: string)
    ensures Trimmed(Normalize(s))
    ensures SingleSpaced(Normalize(s))
  {
    var j := Join(Fields(s), " ");
    JoinIsSingleSpaced(Fields(s));
    assert Trimmed(j);
    TrimSpaceOfTrimmed(j);
  }

  /** Normalisation keeps the words of its input, in order. */
  lemma NormalizeKeepsFields(s: string)
    ensures Fields(Normalize(s)) == Fields(s)
  {
    var j := Join(Fields(s), " ");
    JoinIsSingleSpaced(Fields(s));
    TrimSpaceOfTrimmed(j);
    FieldsOfJoin(Fields(s));
  }

  /** A string is left unchanged by normalisation exactly when it is single-spaced. */
  lemma NormalizeFixedPoints(s: string)
    ensures Normalize(s) == s <==> SingleSpaced(s)
  {
    if SingleSpaced(s) {
      JoinOfFields(s);
      TrimSpaceOfTrimmed(s);
    } else {
      NormalizeShape(s);
    }
  }

  /** Normalising twice is normalising once. */
  lemma NormalizeIdempotent(s: string)
    ensures Normalize(Normalize(s)) == Normalize(s)
  {
    NormalizeShape(s);
    NormalizeFixedPoints(Normalize(s));
  }

  lemma {:induction false} FieldsSkipsSpaces(spaces: string, t: string)
    requires forall i :: 0 <= i < |spaces| ==> IsSpace(spaces[i])
    ensures Fields(spaces + t) == Fields(t)
  {
    if spaces == [] {
      assert spaces + t == t;
    } else {
      assert spaces + t == [spaces[0]] + (spaces[1..] + t);
      FieldsSkipsSpace(spaces[0], spaces[1..] + t);
      FieldsSkipsSpaces(spaces[1..], t);
    }
  }

  lemma SamplePieces()
    ensures IsWord("Hello") && IsWord("World")
    ensures forall i :: 0 <= i < |"   "| ==> IsSpace("   "[i])
    ensures "Hello" + ("   " + "World") == "Hello   World"
  {
  }

  lemma FieldsOfSample()
    ensures Fields("Hello   World") == ["Hello", "World"]
  {
    SamplePieces();
    FieldsOfWordThenSpace("Hello", "   " + "World");
    FieldsSkipsSpaces("   ", "World");
    FieldsOfWordThenSpace("World", []);
    assert "World" + [] == "World";
  }

  /** Runs of white space collapse to one space. */
  lemma NormalizeCollapsesRun()
    ensures Normalize("Hello   World") == "Hello World"
  {
    var j := "Hello World";
    assert Join(["Hello", "World"], " ") == j by {
      JoinCons("Hello", ["World"], " ");
    }
    assert Trimmed(j);
    TrimSpaceOfTrimmed(j);
    FieldsOfSample();
  }
}
