/** src/common.cc: the tokenizer. */
module SplitStr {

  /** Length of the delimiter-free prefix. */
  function RunLength(s: string, d: char): (n: nat)
    ensures n <= |s| && d !in s[..n] && (n < |s| ==> s[n] == d)
  {
    if s == "" || s[0] == d then 0 else 1 + RunLength(s[1..], d)
  }

  /** The tokens, read off from the front. */
  function Tokens(s: string, d: char): seq<string> {
    if s == "" then []
    else if s[0] == d then Tokens(s[1..], d)
    else [s[..RunLength(s, d)]] + Tokens(s[RunLength(s, d)..], d)
  }

  lemma {:induction false} RunLengthOf(token: string, rest: string, d: char)
    requires d !in token && (rest == "" || rest[0] == d)
    ensures RunLength(token + rest, d) == |token|
  {
    if token != "" {
      assert (token + rest)[1..] == token[1..] + rest;
      RunLengthOf(token[1..], rest, d);
    } else {
      assert token + rest == rest;
    }
  }

  /** A delimiter-free token in front of a delimiter, or of the end, is the first token. */
  lemma {:induction false} TokensFirst(token: string, rest: string, d: char)
    requires d !in token && token != "" && (rest == "" || rest[0] == d)
    ensures Tokens(token + rest, d) == [token] + Tokens(rest, d)
  {
    RunLengthOf(token, rest, d);
    assert (token + rest)[..|token|] == token && (token + rest)[|token|..] == rest;
  }

  /** At a delimiter the pending token ends, if there is one. */
  lemma {:induction false} TokensAtDelimiter(token: string, rest: string, d: char)
    requires d !in token
    ensures Tokens(token + ([d] + rest), d) == (if token == "" then [] else [token]) + Tokens(rest, d)
  {
    assert ([d] + rest)[1..] == rest;
    if token == "" {
      assert token + ([d] + rest) == [d] + rest;
    } else {
      TokensFirst(token, [d] + rest, d);
    }
  }

  lemma {:induction false} TokensAtEnd(token: string, d: char)
    requires d !in token
    ensures Tokens(token, d) == if token == "" then [] else [token]
  {
    if token != "" {
      TokensFirst(token, "", d);
      assert token + "" == token;
    }
  }

  /** Reading one more character. */
  lemma {:induction false} TokensNext(token: string, str: string, i: nat, d: char)
    requires d !in token && i < |str|
    ensures Tokens(token + str[i..], d) ==
      if str[i] != d then Tokens((token + [str[i]]) + str[i + 1..], d)
      else (if token == "" then [] else [token]) + Tokens("" + str[i + 1..], d)
  {
    var rest := str[i + 1..];
    assert str[i..] == [str[i]] + rest;
    if str[i] == d {
      TokensAtDelimiter(token, rest, d);
      assert "" + rest == rest;
    } else {
      assert token + str[i..] == (token + [str[i]]) + rest;
    }
  }

  method Split(str: string, delimiter: char) returns (result: seq<string>)
    ensures result == Tokens(str, delimiter)
  {
    result := [];
    var token := "";
    assert token + str[0..] == str;
    for i := 0 to |str|
      invariant delimiter !in token
      invariant Tokens(str, delimiter) == result + Tokens(token + str[i..], delimiter)
    {
      var c := str[i];
      TokensNext(token, str, i, delimiter);
      if c == delimiter {
        if token != "" {
          result := result + [token];
          token := "";
        }
      } else {
        token := token + [c];
      }
    }
    assert token + str[|str|..] == token;
    TokensAtEnd(token, delimiter);
    if token != "" {
      result := result + [token];
    }
  }

  // ---------------------------------------------------------------- maximal runs

  predicate Free(s: string, d: char, i: nat, j: nat)
    requires i <= j <= |s|
  {
    forall k | i <= k < j :: s[k] != d
  }

  /** s[i..j] is a maximal delimiter-free non-empty run. */
  predicate IsMaximalRun(s: string, d: char, i: nat, j: nat) {
    i < j <= |s| && Free(s, d, i, j) && (i == 0 || s[i - 1] == d) && (j == |s| || s[j] == d)
  }

  function RunEnd(s: string, d: char, i: nat): (j: nat)
    requires i <= |s|
    ensures i <= j <= |s| && Free(s, d, i, j) && (j < |s| ==> s[j] == d)
    decreases |s| - i
  {
    if i == |s| || s[i] == d then i else RunEnd(s, d, i + 1)
  }

  /** Where the tokens of s[from..] start and end in s. */
  function Spans(s: string, d: char, from: nat): seq<(nat, nat)>
    requires from <= |s|
    decreases |s| - from
  {
    if from == |s| then []
    else if s[from] == d then Spans(s, d, from + 1)
    else [(from, RunEnd(s, d, from))] + Spans(s, d, RunEnd(s, d, from))
  }

  lemma {:induction false} SpansAreTokens(s: string, d: char, from: nat)
    requires from <= |s|
    ensures |Spans(s, d, from)| == |Tokens(s[from..], d)|
    ensures forall k | 0 <= k < |Spans(s, d, from)| ::
      var (i, j) := Spans(s, d, from)[k];
      from <= i <= j <= |s| && Tokens(s[from..], d)[k] == s[i..j]
    decreases |s| - from
  {
    if from < |s| {
      if s[from] == d {
        assert s[from..][1..] == s[from + 1..];
        SpansAreTokens(s, d, from + 1);
      } else {
        var to := RunEnd(s, d, from);
        assert s[from..] == s[from..to] + s[to..];
        TokensFirst(s[from..to], s[to..], d);
        SpansAreTokens(s, d, to);
      }
    }
  }

  /** Ordered, maximal, and complete. */
  ghost predicate ExactSpans(s: string, d: char, from: nat, spans: seq<(nat, nat)>) {
    && (forall k | 0 <= k < |spans| :: from <= spans[k].0 && IsMaximalRun(s, d, spans[k].0, spans[k].1))
    && (forall k, l | 0 <= k < l < |spans| :: spans[k].1 < spans[l].0)
    && (forall i: nat, j: nat | from <= i && IsMaximalRun(s, d, i, j) :: (i, j) in spans)
  }

  lemma {:induction false} SpansExact(s: string, d: char, from: nat)
    requires from <= |s| && (from == 0 || s[from - 1] == d || from == |s| || s[from] == d)
    ensures ExactSpans(s, d, from, Spans(s, d, from))
    decreases |s| - from
  {
    if from < |s| {
      if s[from] == d {
        SpansExact(s, d, from + 1);
        SkipDelimiter(s, d, from, Spans(s, d, from + 1));
      } else {
        var to := RunEnd(s, d, from);
        SpansExact(s, d, to);
        FirstRunIsExact(s, d, from, to, Spans(s, d, to));
      }
    }
  }

  lemma {:induction false} SkipDelimiter(s: string, d: char, from: nat, spans: seq<(nat, nat)>)
    requires from < |s| && s[from] == d && ExactSpans(s, d, from + 1, spans)
    ensures ExactSpans(s, d, from, spans)
  {}

  lemma {:induction false} FirstRunIsExact(s: string, d: char, from: nat, to: nat, rest: seq<(nat, nat)>)
    requires IsMaximalRun(s, d, from, to) && ExactSpans(s, d, to, rest)
    ensures ExactSpans(s, d, from, [(from, to)] + rest)
  {
    var spans := [(from, to)] + rest;
    forall k | 0 <= k < |rest| ensures to < rest[k].0 {
      assert IsMaximalRun(s, d, rest[k].0, rest[k].1);
    }
    forall i: nat, j: nat | from <= i && IsMaximalRun(s, d, i, j) ensures (i, j) in spans {
      OverlappingRuns(s, d, from, to, i, j);
      if (i, j) == (from, to) { assert spans[0] == (i, j); } else { assert (i, j) in rest; }
    }
  }

  /** Two maximal runs are equal or disjoint. */
  lemma {:induction false} OverlappingRuns(s: string, d: char, from: nat, to: nat, i: nat, j: nat)
    requires IsMaximalRun(s, d, from, to) && from <= i && IsMaximalRun(s, d, i, j)
    ensures (i, j) == (from, to) || to <= i
  {}

  /** `split_str` returns exactly the maximal delimiter-free non-empty runs of the string, in order. */
  lemma {:induction false} TokensAreMaximalRuns(s: string, d: char) returns (spans: seq<(nat, nat)>)
    ensures |spans| == |Tokens(s, d)| && ExactSpans(s, d, 0, spans)
    ensures forall k | 0 <= k < |spans| :: spans[k].0 <= spans[k].1 <= |s| && Tokens(s, d)[k] == s[spans[k].0..spans[k].1]
  {
    spans := Spans(s, d, 0);
    assert s[0..] == s;
    SpansAreTokens(s, d, 0);
    SpansExact(s, d, 0);
  }

  // ---------------------------------------------------------------- concatenation and join

  function Concat(tokens: seq<string>): string {
    if tokens == [] then "" else tokens[0] + Concat(tokens[1..])
  }

  function Without(s: string, d: char): string {
    if s == "" then "" else (if s[0] == d then "" else [s[0]]) + Without(s[1..], d)
  }

  lemma {:induction false} WithoutPrefix(token: string, rest: string, d: char)
    requires d !in token
    ensures Without(token + rest, d) == token + Without(rest, d)
  {
    if token == "" {
      assert token + rest == rest;
    } else {
      assert (token + rest)[1..] == token[1..] + rest;
      WithoutPrefix(token[1..], rest, d);
    }
  }

  /** The tokens, concatenated, are the string with its delimiters deleted. */
  lemma {:induction false} TokensLoseOnlyDelimiters(s: string, d: char)
    ensures Concat(Tokens(s, d)) == Without(s, d)
    decreases |s|
  {
    if s != "" {
      if s[0] == d {
        TokensLoseOnlyDelimiters(s[1..], d);
      } else {
        var n := RunLength(s, d);
        assert s == s[..n] + s[n..];
        WithoutPrefix(s[..n], s[n..], d);
        TokensLoseOnlyDelimiters(s[n..], d);
      }
    }
  }

  function Join(tokens: seq<string>, d: char): string {
    if tokens == [] then "" else if |tokens| == 1 then tokens[0] else tokens[0] + [d] + Join(tokens[1..], d)
  }

  lemma {:induction false} TokensAreClean(s: string, d: char)
    ensures forall t | t in Tokens(s, d) :: t != "" && d !in t
    decreases |s|
  {
    if s != "" {
      if s[0] == d {
        TokensAreClean(s[1..], d);
      } else {
        TokensAreClean(s[RunLength(s, d)..], d);
      }
    }
  }

  lemma {:induction false} SplitJoin(tokens: seq<string>, d: char)
    requires forall t | t in tokens :: t != "" && d !in t
    ensures Tokens(Join(tokens, d), d) == tokens
  {
    if |tokens| == 1 {
      assert tokens[0] in tokens;
      TokensAtEnd(tokens[0], d);
    } else if |tokens| > 1 {
      assert tokens[0] in tokens && forall t | t in tokens[1..] :: t in tokens;
      var rest := Join(tokens[1..], d);
      TokensAtDelimiter(tokens[0], rest, d);
      assert tokens[0] + [d] + rest == tokens[0] + ([d] + rest);
      SplitJoin(tokens[1..], d);
    }
  }

  /** Splitting undoes joining exactly for non-empty delimiter-free tokens. */
  lemma {:induction false} SplitUndoesJoin(tokens: seq<string>, d: char)
    ensures Tokens(Join(tokens, d), d) == tokens <==> forall t | t in tokens :: t != "" && d !in t
  {
    TokensAreClean(Join(tokens, d), d);
    if forall t | t in tokens :: t != "" && d !in t { SplitJoin(tokens, d); }
  }
}
