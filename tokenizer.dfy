/** What myshell_extract_tokens_from_buffer computes, stated on the text of the
    input line: the line is cut at every space read outside quotes, either
    quote character opens or closes quoting whichever one opened it, quotes
    stay in the tokens, at most 64 tokens are taken, and a trailing `> file`
    or `>> file` is split off as the output redirection. The in-place scan
    over the input buffer is proved against these functions in LineEditor. */
module Tokenizer {
  import opened Common

  /** MYSHELL_MAX_TOKENS. */
  const MAX_TOKENS: nat := 64

  predicate IsQuote(c: char) {
    c == '"' || c == '\''
  }

  /** Whether quoting is open after the first `n` characters: every quote of
      either kind toggles it. */
  function InQuotes(s: string, n: nat): bool
    requires n <= |s|
  {
    if n == 0 then false
    else if IsQuote(s[n - 1]) then !InQuotes(s, n - 1)
    else InQuotes(s, n - 1)
  }

  /** Index `i` ends a token: a space read while quoting is closed. */
  predicate IsSeparator(s: string, i: nat)
    requires i < |s|
  {
    s[i] == ' ' && !InQuotes(s, i)
  }

  /** The separator indexes among the first `n` characters, in increasing order. */
  function Separators(s: string, n: nat): (r: seq<nat>)
    requires n <= |s|
    ensures forall k :: 0 <= k < |r| ==> r[k] < n && IsSeparator(s, r[k])
    ensures forall k, m :: 0 <= k < m < |r| ==> r[k] < r[m]
  {
    if n == 0 then []
    else if IsSeparator(s, n - 1) then Separators(s, n - 1) + [n - 1]
    else Separators(s, n - 1)
  }

  /** Every separator below `n` is listed. */
  lemma {:induction false} SeparatorsComplete(s: string, n: nat, i: nat)
    requires i < n <= |s|
    requires IsSeparator(s, i)
    ensures i in Separators(s, n)
  {
    if i < n - 1 {
      SeparatorsComplete(s, n - 1, i);
    }
  }

  /** Reading further only appends separators. */
  lemma {:induction false} SeparatorsExtend(s: string, n: nat, m: nat)
    requires n <= m <= |s|
    ensures Separators(s, n) <= Separators(s, m)
    decreases m - n
  {
    if n < m {
      SeparatorsExtend(s, n, m - 1);
    }
  }

  /** Between two consecutive listed separators, and before the first one, no
      index is a separator. */
  lemma NoSeparatorBetween(s: string, n: nat, k: nat, j: nat)
    requires n <= |s|
    requires k <= |Separators(s, n)|
    requires TokenStart(Separators(s, n), k) <= j < n
    requires k < |Separators(s, n)| ==> j < Separators(s, n)[k]
    ensures !IsSeparator(s, j)
  {
    var seps := Separators(s, n);
    if IsSeparator(s, j) {
      SeparatorsComplete(s, n, j);
      var m :| 0 <= m < |seps| && seps[m] == j;
    }
  }

  /** Where token `k` starts: at 0, or just after the separator that ended token `k - 1`. */
  function TokenStart(seps: seq<nat>, k: nat): nat
    requires k <= |seps|
  {
    if k == 0 then 0 else seps[k - 1] + 1
  }

  /** Where token `k` ends: at its separator, or at the end of the line. */
  function TokenEnd(seps: seq<nat>, k: nat, len: nat): nat
    requires k <= |seps|
  {
    if k < |seps| then seps[k] else len
  }

  /** The number of tokens: the scan stops at the 64th separator; otherwise
      every separator ends a token, and the text after the last separator is
      one more token unless it is empty. */
  function TokenCount(s: string): (r: nat)
    ensures r <= MAX_TOKENS
    ensures r <= |Separators(s, |s|)| + 1
  {
    var seps := Separators(s, |s|);
    if |seps| >= MAX_TOKENS then MAX_TOKENS
    else if TokenStart(seps, |seps|) < |s| then |seps| + 1
    else |seps|
  }

  /** Token `k` of the line. */
  function Token(s: string, k: nat): (r: string)
    requires k < TokenCount(s)
  {
    var seps := Separators(s, |s|);
    s[TokenStart(seps, k)..TokenEnd(seps, k, |s|)]
  }

  /** The tokens of the line, quotes included. */
  function Tokens(s: string): (r: seq<string>)
    ensures |r| == TokenCount(s) <= MAX_TOKENS
  {
    seq(TokenCount(s), k requires 0 <= k < TokenCount(s) => Token(s, k))
  }

  // ---------------------------------------------------------------------------
  // Redirection

  /** `> file` truncates, `>> file` appends. */
  datatype Redirect = Redirect(file: string, append: bool)

  /** A tokenized line: the command's arguments and the output redirection. */
  datatype CommandLine = CommandLine(args: seq<string>, redirect: Option<Redirect>)

  predicate IsRedirectOperator(t: string) {
    t == ">" || t == ">>"
  }

  /** A redirection is taken from the last two tokens only when the
      second-to-last is exactly `>` or `>>`. */
  function SplitRedirect(tokens: seq<string>): (r: CommandLine)
    ensures r.redirect.Some? <==> |tokens| >= 2 && IsRedirectOperator(tokens[|tokens| - 2])
    ensures r.redirect.Some? ==> |r.args| == |tokens| - 2 && r.redirect.value.file == tokens[|tokens| - 1]
    ensures r.redirect.Some? ==> r.args == tokens[..|tokens| - 2]
    ensures r.redirect.Some? ==> (r.redirect.value.append <==> tokens[|tokens| - 2] == ">>")
    ensures r.redirect.None? ==> r.args == tokens
  {
    var n := |tokens|;
    if n >= 2 && IsRedirectOperator(tokens[n - 2]) then
      CommandLine(tokens[..n - 2], Some(Redirect(tokens[n - 1], tokens[n - 2] == ">>")))
    else
      CommandLine(tokens, None)
  }

  /** The tokens a command line was made from. */
  function Unsplit(line: CommandLine): seq<string> {
    match line.redirect
    case None => line.args
    case Some(r) => line.args + [if r.append then ">>" else ">", r.file]
  }

  /** Splitting off the redirection loses nothing: the tokens come back. */
  lemma UnsplitSplitRedirect(tokens: seq<string>)
    ensures Unsplit(SplitRedirect(tokens)) == tokens
  {
    var n := |tokens|;
    if n >= 2 && IsRedirectOperator(tokens[n - 2]) {
      assert tokens == tokens[..n - 2] + [tokens[n - 2], tokens[n - 1]];
    }
  }

  /** The whole of the tokenizer: tokens, then redirection. */
  function ParseLine(s: string): (r: CommandLine)
    ensures |r.args| <= MAX_TOKENS
    ensures Unsplit(r) == Tokens(s)
  {
    UnsplitSplitRedirect(Tokens(s));
    SplitRedirect(Tokens(s))
  }

  // ---------------------------------------------------------------------------
  // Properties of the tokens

  /** Tokens are maximal: no separator lies inside a token, and each token but
      the one at the end of the line is ended by a separator. */
  lemma TokensAreMaximal(s: string, k: nat)
    requires k < TokenCount(s)
    ensures var seps := Separators(s, |s|);
      forall j :: TokenStart(seps, k) <= j < TokenEnd(seps, k, |s|) ==> !IsSeparator(s, j)
    ensures var seps := Separators(s, |s|);
      TokenEnd(seps, k, |s|) < |s| ==> IsSeparator(s, TokenEnd(seps, k, |s|))
  {
    var seps := Separators(s, |s|);
    forall j | TokenStart(seps, k) <= j < TokenEnd(seps, k, |s|)
      ensures !IsSeparator(s, j)
    {
      NoSeparatorBetween(s, |s|, k, j);
    }
  }

  /** Tokens joined by single spaces. */
  function Join(ts: seq<string>): string
    decreases |ts|
  {
    if |ts| == 0 then []
    else if |ts| == 1 then ts[0]
    else Join(ts[..|ts| - 1]) + " " + ts[|ts| - 1]
  }

  /** Gluing two adjacent slices back at a space. */
  lemma GlueAtSpace(s: string, e: nat, end: nat)
    requires e < end <= |s|
    requires s[e] == ' '
    ensures s[..e] + " " + s[e + 1..end] == s[..end]
  {
  }

  /** Joining one more token adds a space and the token. */
  lemma JoinStep(ts: seq<string>, k: nat)
    requires 2 <= k <= |ts|
    ensures Join(ts[..k]) == Join(ts[..k - 1]) + " " + ts[k - 1]
  {
    assert ts[..k][..k - 1] == ts[..k - 1];
  }

  /** Token `k` read from the list of tokens. */
  lemma TokenAt(s: string, k: nat)
    requires k < TokenCount(s)
    ensures Tokens(s)[k] == s[TokenStart(Separators(s, |s|), k)..TokenEnd(Separators(s, |s|), k, |s|)]
  {
  }

  /** Joining the first `k` tokens gives the line up to the end of token `k - 1`. */
  lemma {:induction false} JoinPrefix(s: string, k: nat)
    requires 1 <= k <= TokenCount(s)
    ensures Join(Tokens(s)[..k]) == s[..TokenEnd(Separators(s, |s|), k - 1, |s|)]
  {
    var seps := Separators(s, |s|);
    if k == 1 {
      TokenAt(s, 0);
      assert Tokens(s)[..1] == [Tokens(s)[0]];
    } else {
      var e, end := seps[k - 2], TokenEnd(seps, k - 1, |s|);
      JoinStep(Tokens(s), k);
      JoinPrefix(s, k - 1);
      TokenAt(s, k - 1);
      GlueAtSpace(s, e, end);
    }
  }

  /** Below the 64-token cap the tokens give back the line: joined by single
      spaces, plus the one separator that ended the line when it ended in a
      separator. */
  lemma JoinTokens(s: string)
    requires |Separators(s, |s|)| < MAX_TOKENS
    ensures var seps := Separators(s, |s|);
      s == Join(Tokens(s)) + (if |seps| > 0 && TokenStart(seps, |seps|) == |s| then " " else "")
  {
    var seps := Separators(s, |s|);
    if |seps| > 0 && TokenStart(seps, |seps|) == |s| {
      JoinTokensTrailing(s);
    } else {
      JoinTokensNoTrailing(s);
    }
  }

  lemma JoinTokensTrailing(s: string)
    requires 0 < |Separators(s, |s|)| < MAX_TOKENS
    requires TokenStart(Separators(s, |s|), |Separators(s, |s|)|) == |s|
    ensures s == Join(Tokens(s)) + " "
  {
    var seps := Separators(s, |s|);
    var ts := Tokens(s);
    var n := |ts|;
    assert n == |seps|;
    assert ts[..n] == ts;
    JoinPrefix(s, n);
    var e := seps[n - 1];
    assert e == |s| - 1 && s[e] == ' ';
    assert s == s[..e] + " ";
  }

  lemma JoinTokensNoTrailing(s: string)
    requires |Separators(s, |s|)| < MAX_TOKENS
    requires |Separators(s, |s|)| == 0 || TokenStart(Separators(s, |s|), |Separators(s, |s|)|) < |s|
    ensures s == Join(Tokens(s))
  {
    var ts := Tokens(s);
    var n := |ts|;
    if n == 0 {
      assert |s| == 0;
    } else {
      assert ts[..n] == ts;
      JoinPrefix(s, n);
      assert s[..|s|] == s;
    }
  }

  /** Two separators in a row enclose an empty token. */
  lemma AdjacentSeparatorsGiveEmptyToken(s: string, k: nat)
    requires 0 < k < TokenCount(s) && k < |Separators(s, |s|)|
    requires Separators(s, |s|)[k - 1] + 1 == Separators(s, |s|)[k]
    ensures Tokens(s)[k] == ""
  {
    TokenAt(s, k);
  }

  /** A line that ends in a separator has no token after it: below the cap, the
      last token is the one that separator ends. */
  lemma TrailingSeparatorGivesNoToken(s: string)
    requires |s| > 0 && IsSeparator(s, |s| - 1)
    requires |Separators(s, |s|)| < MAX_TOKENS
    ensures TokenCount(s) == |Separators(s, |s|)|
    ensures TokenEnd(Separators(s, |s|), TokenCount(s) - 1, |s|) == |s| - 1
  {
    assert Separators(s, |s|) == Separators(s, |s| - 1) + [|s| - 1];
  }
}
