/**
  Decoders for IDML attribute strings: a space-separated list of numbers
  (as in ItemTransform="1 0 0 1 10 20") and an object id that may be
  written as "n" or left empty to mean "no object".

  The input is the attribute's text; obtaining it from the XML
  deserializer is outside this model. Parsing one token into a number is
  a parameter `parse` that returns None when the token is not a number.
*/
module Formats {
  import opened Wrappers

  // ---------------------------------------------------------------------
  // Trimming
  // ---------------------------------------------------------------------

  /** The Unicode White_Space property, which is what Rust's `str::trim` strips. */
  predicate IsWhitespace(c: char)
  {
    var n := c as int;
    (0x09 <= n <= 0x0D) || n == 0x20 || n == 0x85 || n == 0xA0 || n == 0x1680
    || (0x2000 <= n <= 0x200A) || n == 0x2028 || n == 0x2029 || n == 0x202F
    || n == 0x205F || n == 0x3000
  }

  predicate AllWhitespace(s: string)
  {
    forall i | 0 <= i < |s| :: IsWhitespace(s[i])
  }

  /** Neither the first nor the last character is whitespace. */
  predicate IsTrimmed(s: string)
  {
    |s| > 0 ==> !IsWhitespace(s[0]) && !IsWhitespace(s[|s| - 1])
  }

  /** `s` with its leading whitespace removed. */
  function TrimStart(s: string): (r: string)
    ensures |r| <= |s|
  {
    if |s| > 0 && IsWhitespace(s[0]) then TrimStart(s[1..]) else s
  }

  /** `s` with its trailing whitespace removed. */
  function TrimEnd(s: string): (r: string)
    ensures |r| <= |s|
  {
    if |s| > 0 && IsWhitespace(s[|s| - 1]) then TrimEnd(s[..|s| - 1]) else s
  }

  /** `TrimStart` removes a whitespace prefix and stops at a non-whitespace character. */
  lemma {:induction false} TrimStartRemovesPrefix(s: string)
    ensures var r := TrimStart(s);
            && r == s[|s| - |r|..]
            && AllWhitespace(s[..|s| - |r|])
            && (|r| > 0 ==> !IsWhitespace(r[0]))
  {
    if |s| > 0 && IsWhitespace(s[0]) {
      TrimStartRemovesPrefix(s[1..]);
      var r := TrimStart(s);
      assert s[1..][|s| - 1 - |r|..] == s[|s| - |r|..];
      assert forall k | 1 <= k < |s| - |r| :: s[k] == s[1..][..|s| - 1 - |r|][k - 1];
    }
  }

  /** `TrimEnd` removes a whitespace suffix and stops at a non-whitespace character. */
  lemma {:induction false} TrimEndRemovesSuffix(s: string)
    ensures var r := TrimEnd(s);
            && r == s[..|r|]
            && AllWhitespace(s[|r|..])
            && (|r| > 0 ==> !IsWhitespace(r[|r| - 1]))
  {
    if |s| > 0 && IsWhitespace(s[|s| - 1]) {
      TrimEndRemovesSuffix(s[..|s| - 1]);
      var r := TrimEnd(s);
      assert s[..|s| - 1][..|r|] == s[..|r|];
      assert forall k | |r| <= k < |s| - 1 :: s[k] == s[..|s| - 1][|r|..][k - |r|];
    }
  }

  /** Rust's `str::trim`: whitespace removed at both ends. */
  function Trim(s: string): (r: string)
    ensures IsTrimmed(r)
  {
    var t := TrimStart(s);
    TrimStartRemovesPrefix(s);
    TrimEndRemovesSuffix(t);
    TrimEnd(t)
  }

  /** What `Trim` removes is whitespace at either end: its result is an infix of the input. */
  lemma TrimIsInfix(s: string)
    ensures var r := Trim(s);
            exists i :: 0 <= i <= |s| - |r| && s[i..i + |r|] == r
                        && AllWhitespace(s[..i]) && AllWhitespace(s[i + |r|..])
  {
    var t := TrimStart(s);
    TrimStartRemovesPrefix(s);
    TrimEndRemovesSuffix(t);
    var r := TrimEnd(t);
    var i := |s| - |t|;
    assert s[i..i + |r|] == r;
    assert s[i + |r|..] == t[|r|..];
  }

  lemma TrimStartOfWhitespacePrefix(w: string, t: string)
    requires AllWhitespace(w)
    requires |t| == 0 || !IsWhitespace(t[0])
    ensures TrimStart(w + t) == t
  {
    if |w| > 0 {
      assert (w + t)[1..] == w[1..] + t;
      TrimStartOfWhitespacePrefix(w[1..], t);
    }
  }

  lemma TrimEndOfWhitespaceSuffix(t: string, w: string)
    requires AllWhitespace(w)
    requires |t| == 0 || !IsWhitespace(t[|t| - 1])
    ensures TrimEnd(t + w) == t
  {
    if |w| > 0 {
      assert (t + w)[..|t + w| - 1] == t + w[..|w| - 1];
      TrimEndOfWhitespaceSuffix(t, w[..|w| - 1]);
    }
  }

  /**
    `Trim` is characterised by its result: whenever `s` is a trimmed string
    with whitespace on either side, `Trim(s)` is that trimmed string.
  */
  lemma {:induction false} TrimUnique(w1: string, r: string, w2: string)
    requires AllWhitespace(w1) && AllWhitespace(w2) && IsTrimmed(r)
    ensures Trim(w1 + r + w2) == r
  {
    var s := w1 + r + w2;
    if |r| == 0 {
      assert s == (w1 + w2) + "";
      TrimStartOfWhitespacePrefix(w1 + w2, "");
    } else {
      assert s == w1 + (r + w2);
      TrimStartOfWhitespacePrefix(w1, r + w2);
      TrimEndOfWhitespaceSuffix(r, w2);
    }
  }

  /** Whitespace around the input does not change the trimmed string. */
  lemma TrimIgnoresSurroundingWhitespace(w1: string, s: string, w2: string)
    requires AllWhitespace(w1) && AllWhitespace(w2)
    ensures Trim(w1 + s + w2) == Trim(s)
  {
    var t := TrimStart(s);
    TrimStartRemovesPrefix(s);
    TrimEndRemovesSuffix(t);
    var r := TrimEnd(t);
    var a := s[..|s| - |t|];
    var b := t[|r|..];
    assert s == a + (r + b) by {
      assert t == r + b;
      assert s == a + t;
    }
    Regroup(w1, a, r, b, w2);
    AllWhitespaceAppend(w1, a);
    AllWhitespaceAppend(b, w2);
    TrimUnique(w1 + a, r, b + w2);
  }

  lemma AllWhitespaceAppend(a: string, b: string)
    requires AllWhitespace(a) && AllWhitespace(b)
    ensures AllWhitespace(a + b)
  {
  }

  lemma Regroup(w1: string, a: string, r: string, b: string, w2: string)
    ensures w1 + (a + (r + b)) + w2 == (w1 + a) + r + (b + w2)
  {
  }

  // ---------------------------------------------------------------------
  // Splitting on one separator character
  // ---------------------------------------------------------------------

  /** The number of occurrences of `c` in `s`. */
  function Count(s: string, c: char): nat
  {
    if |s| == 0 then 0 else (if s[0] == c then 1 else 0) + Count(s[1..], c)
  }

  /** The position of the first `c` in `s`. */
  function IndexOf(s: string, c: char): (i: nat)
    requires c in s
    ensures i < |s| && s[i] == c && c !in s[..i]
  {
    if s[0] == c then 0 else IndexOf(s[1..], c) + 1
  }

  /** The tokens joined back together with `sep` between them. */
  function Join(tokens: seq<string>, sep: char): string
    requires |tokens| > 0
  {
    if |tokens| == 1 then tokens[0] else tokens[0] + [sep] + Join(tokens[1..], sep)
  }

  lemma CountAppend(a: string, b: string, c: char)
    ensures Count(a + b, c) == Count(a, c) + Count(b, c)
  {
    if |a| == 0 {
      assert a + b == b;
    } else {
      assert (a + b)[0] == a[0];
      assert (a + b)[1..] == a[1..] + b;
      CountAppend(a[1..], b, c);
    }
  }

  lemma CountAbsent(s: string, c: char)
    requires c !in s
    ensures Count(s, c) == 0
  {
    if |s| > 0 {
      CountAbsent(s[1..], c);
    }
  }

  /**
    Rust's `str::split` on one character: the maximal pieces between
    separators, including empty pieces, so there is always one more piece
    than there are separators.
  */
  function Split(s: string, sep: char): (r: seq<string>)
    ensures |r| == Count(s, sep) + 1
    ensures forall k | 0 <= k < |r| :: sep !in r[k]
    ensures Join(r, sep) == s
    decreases |s|
  {
    if sep !in s then
      CountAbsent(s, sep);
      [s]
    else
      var i := IndexOf(s, sep);
      var rest := Split(s[i + 1..], sep);
      assert s == s[..i] + ([sep] + s[i + 1..]);
      assert ([sep] + s[i + 1..])[1..] == s[i + 1..];
      CountAbsent(s[..i], sep);
      CountAppend(s[..i], [sep] + s[i + 1..], sep);
      [s[..i]] + rest
  }

  /** Splitting undoes joining when no token contains the separator. */
  lemma {:induction false} SplitJoin(tokens: seq<string>, sep: char)
    requires |tokens| > 0
    requires forall k | 0 <= k < |tokens| :: sep !in tokens[k]
    ensures Split(Join(tokens, sep), sep) == tokens
  {
    if |tokens| > 1 {
      var s := Join(tokens, sep);
      assert s == tokens[0] + [sep] + Join(tokens[1..], sep);
      assert sep in s by { assert s[|tokens[0]|] == sep; }
      var i := IndexOf(s, sep);
      assert i == |tokens[0]|;
      assert s[..i] == tokens[0];
      assert s[i + 1..] == Join(tokens[1..], sep);
      SplitJoin(tokens[1..], sep);
    }
  }

  /** Two adjacent separators produce an empty token. */
  lemma {:induction false} AdjacentSeparatorsGiveEmptyToken(s: string, sep: char, k: nat)
    requires k + 1 < |s| && s[k] == sep && s[k + 1] == sep
    ensures "" in Split(s, sep)
    decreases |s|
  {
    var i := IndexOf(s, sep);
    assert i <= k;
    if i == k {
      var rest := s[i + 1..];
      assert rest[0] == sep;
      assert IndexOf(rest, sep) == 0;
      assert Split(rest, sep)[0] == "";
    } else {
      AdjacentSeparatorsGiveEmptyToken(s[i + 1..], sep, k - i - 1);
    }
  }

  // ---------------------------------------------------------------------
  // Number lists
  // ---------------------------------------------------------------------

  /** The failure of the number-list decoder: the first token that is not a number. */
  datatype DecodeError = ParseFailure(token: string)

  /**
    Every token parsed in order. The first token that does not parse stops
    the decoding (`deserialize_space_seperated_vec` panics with that token
    in its message).
  */
  function ParseAll<N>(tokens: seq<string>, parse: string -> Option<N>): (r: Result<seq<N>, DecodeError>)
    ensures r.Success? <==> forall k | 0 <= k < |tokens| :: parse(tokens[k]).Some?
    ensures r.Success? ==> |r.value| == |tokens|
                           && forall k | 0 <= k < |tokens| :: parse(tokens[k]) == Some(r.value[k])
    ensures r.Failure? ==> exists k | 0 <= k < |tokens| ::
                             && parse(tokens[k]).None?
                             && r.error == ParseFailure(tokens[k])
                             && forall j | 0 <= j < k :: parse(tokens[j]).Some?
  {
    if |tokens| == 0 then Success([])
    else
      match parse(tokens[0])
      case None => Failure(ParseFailure(tokens[0]))
      case Some(n) =>
        var rest := ParseAll(tokens[1..], parse);
        match rest
        case Failure(e) =>
          assert forall k | 1 <= k < |tokens| :: tokens[k] == tokens[1..][k - 1];
          Failure(e)
        case Success(ns) =>
          assert forall k | 1 <= k < |tokens| :: tokens[k] == tokens[1..][k - 1];
          Success([n] + ns)
  }

  /** The space-separated tokens of an attribute: its trimmed text split on single spaces. */
  function Tokens(s: string): seq<string>
  {
    Split(Trim(s), ' ')
  }

  /**
    A space-separated attribute decoded into a list of numbers, one per
    token, in order. Blank text gives the empty list.
  */
  function DecodeNumberList<N>(s: string, parse: string -> Option<N>): (r: Result<seq<N>, DecodeError>)
    ensures |Trim(s)| == 0 ==> r == Success([])
    ensures |Trim(s)| > 0 ==>
              (r.Success? <==> forall k | 0 <= k < |Tokens(s)| :: parse(Tokens(s)[k]).Some?)
    ensures |Trim(s)| > 0 && r.Success? ==>
              && |r.value| == Count(Trim(s), ' ') + 1
              && forall k | 0 <= k < |Tokens(s)| :: parse(Tokens(s)[k]) == Some(r.value[k])
    ensures |Trim(s)| > 0 && r.Failure? ==>
              exists k | 0 <= k < |Tokens(s)| ::
                && parse(Tokens(s)[k]).None?
                && r.error == ParseFailure(Tokens(s)[k])
                && forall j | 0 <= j < k :: parse(Tokens(s)[j]).Some?
  {
    if |Trim(s)| == 0 then Success([]) else ParseAll(Tokens(s), parse)
  }

  /** The optional variant: the plain decoder's list wrapped in Some, its error unchanged. */
  function DecodeOptNumberList<N>(s: string, parse: string -> Option<N>): (r: Result<Option<seq<N>>, DecodeError>)
    ensures r.Success? <==> DecodeNumberList(s, parse).Success?
    ensures r.Success? ==> r.value == Some(DecodeNumberList(s, parse).value)
    ensures r.Failure? ==> r.error == DecodeNumberList(s, parse).error
  {
    match DecodeNumberList(s, parse)
    case Success(v) => Success(Some(v))
    case Failure(e) => Failure(e)
  }

  /** An empty token is a decoding error whenever the empty string is not a number. */
  lemma DoubleSpaceFails<N>(s: string, parse: string -> Option<N>, k: nat)
    requires parse("").None?
    requires k + 1 < |Trim(s)| && Trim(s)[k] == ' ' && Trim(s)[k + 1] == ' '
    ensures DecodeNumberList(s, parse).Failure?
  {
    AdjacentSeparatorsGiveEmptyToken(Trim(s), ' ', k);
  }

  /** Decoding a list of already-separated number tokens joined by single spaces gives them back. */
  lemma DecodeJoinedTokens<N>(tokens: seq<string>, values: seq<N>, parse: string -> Option<N>)
    requires |tokens| > 0 && |tokens| == |values|
    requires forall k | 0 <= k < |tokens| :: ' ' !in tokens[k] && parse(tokens[k]) == Some(values[k])
    requires IsTrimmed(Join(tokens, ' ')) && |Join(tokens, ' ')| > 0
    ensures DecodeNumberList(Join(tokens, ' '), parse) == Success(values)
  {
    var s := Join(tokens, ' ');
    assert s == "" + s + "";
    TrimUnique("", s, "");
    SplitJoin(tokens, ' ');
    assert Tokens(s) == tokens;
    var r := DecodeNumberList(s, parse);
    assert r.Success?;
    assert r.value == values;
  }

  // ---------------------------------------------------------------------
  // Object ids
  // ---------------------------------------------------------------------

  /** An id attribute: blank text and the placeholder "n" mean "no object". */
  function DecodeIdString(s: string): (r: Option<string>)
    ensures r.None? <==> Trim(s) == "" || Trim(s) == "n"
    ensures r.Some? ==> r.value == Trim(s)
    ensures r.Some? ==> |r.value| > 0 && IsTrimmed(r.value) && r.value != "n"
  {
    var t := Trim(s);
    if t == "" || t == "n" then None else Some(t)
  }

  /** An id written with any surrounding whitespace decodes to itself. */
  lemma DecodeIdStringRoundTrip(w1: string, id: string, w2: string)
    requires AllWhitespace(w1) && AllWhitespace(w2)
    requires IsTrimmed(id) && id != "" && id != "n"
    ensures DecodeIdString(w1 + id + w2) == Some(id)
  {
    TrimUnique(w1, id, w2);
  }

  /** The number-list decoders ignore whitespace around the attribute text. */
  lemma NumberListIgnoresSurroundingWhitespace<N>(w1: string, s: string, w2: string, parse: string -> Option<N>)
    requires AllWhitespace(w1) && AllWhitespace(w2)
    ensures DecodeNumberList(w1 + s + w2, parse) == DecodeNumberList(s, parse)
    ensures DecodeOptNumberList(w1 + s + w2, parse) == DecodeOptNumberList(s, parse)
  {
    TrimIgnoresSurroundingWhitespace(w1, s, w2);
    assert Tokens(w1 + s + w2) == Tokens(s);
  }

  /** The id decoder ignores whitespace around the attribute text. */
  lemma IdStringIgnoresSurroundingWhitespace(w1: string, s: string, w2: string)
    requires AllWhitespace(w1) && AllWhitespace(w2)
    ensures DecodeIdString(w1 + s + w2) == DecodeIdString(s)
  {
    TrimIgnoresSurroundingWhitespace(w1, s, w2);
  }
}
