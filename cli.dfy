/** `parseCLI` (index.ts:110-127): split the command line on whitespace runs,
    take the command and the positional arguments, and hand the rest to the
    flag parser. */
module Cli {
  import opened Results
  import opened Strings
  import opened Tokenizer
  import opened Flags

  /** The parsed command (`CLICommand`, index.ts:21-25). */
  datatype CliCommand = CliCommand(command: string, args: seq<string>, flags: FlagMap)

  /** The characters a JavaScript `\s` matches: the ECMAScript white space and
      line terminator characters. Every line terminator is one of them, and no
      printable ASCII character other than the space is. */
  predicate IsWhitespace(c: char): (r: bool)
    ensures IsLineTerminator(c) ==> r
    ensures r ==> !('!' <= c <= '~')
  {
    c == '\t' || c == '\n' || c == '\U{000B}' || c == '\U{000C}' || c == '\r' || c == ' '
    || c == '\U{00A0}' || c == '\U{1680}' || ('\U{2000}' <= c <= '\U{200A}')
    || c == '\U{2028}' || c == '\U{2029}' || c == '\U{202F}' || c == '\U{205F}'
    || c == '\U{3000}' || c == '\U{FEFF}'
  }

  predicate NoWhitespace(s: string)
  {
    forall i :: 0 <= i < |s| ==> !IsWhitespace(s[i])
  }

  /** The length of the longest prefix of `s` without whitespace. */
  function TokenLength(s: string): (n: nat)
    ensures n <= |s|
    ensures forall i :: 0 <= i < n ==> !IsWhitespace(s[i])
    ensures n < |s| ==> IsWhitespace(s[n])
  {
    if s == [] || IsWhitespace(s[0]) then 0 else 1 + TokenLength(s[1..])
  }

  /** The length of the longest prefix of `s` made of whitespace. */
  function BlankLength(s: string): (n: nat)
    ensures n <= |s|
    ensures forall i :: 0 <= i < n ==> IsWhitespace(s[i])
    ensures n < |s| ==> !IsWhitespace(s[n])
  {
    if s == [] || !IsWhitespace(s[0]) then 0 else 1 + BlankLength(s[1..])
  }

  /** What follows the whitespace run that starts at `k`. */
  function AfterBlank(s: string, k: nat): (rest: string)
    requires k < |s| && IsWhitespace(s[k])
    ensures |rest| < |s| - k
    ensures rest != [] ==> !IsWhitespace(rest[0])
  {
    s[k + BlankLength(s[k..])..]
  }

  /** `cli.split(/\s+/)` (index.ts:111): the pieces between maximal whitespace
      runs. There is always at least one piece, no piece holds whitespace, and
      only the first and the last may be empty (leading or trailing blanks). */
  function Split(s: string): (r: seq<string>)
    ensures |r| >= 1
    ensures forall i :: 0 <= i < |r| ==> NoWhitespace(r[i])
    ensures forall i :: 0 < i < |r| - 1 ==> r[i] != ""
    decreases |s|
  {
    var k := TokenLength(s);
    if k == |s| then [s]
    else
      var rest := AfterBlank(s, k);
      var r := [s[..k]] + Split(rest);
      assert forall i :: 0 < i < |r| ==> r[i] == Split(rest)[i - 1];
      r
  }

  /** Every whitespace run replaced by one space: the reference for what the
      split followed by the join of index.ts:125 does to the text. */
  function CollapseWhitespace(s: string): string
    decreases |s|
  {
    if s == [] then []
    else if IsWhitespace(s[0]) then " " + CollapseWhitespace(s[BlankLength(s)..])
    else [s[0]] + CollapseWhitespace(s[1..])
  }

  /** One step of the split: the first token, then the split of what follows
      the first whitespace run. */
  lemma SplitStep(s: string)
    requires TokenLength(s) < |s|
    ensures Split(s) == [s[..TokenLength(s)]] + Split(AfterBlank(s, TokenLength(s)))
  {
  }

  lemma JoinSplitStep(s: string)
    requires TokenLength(s) < |s|
    ensures JoinSpace(Split(s)) == s[..TokenLength(s)] + (" " + JoinSpace(Split(AfterBlank(s, TokenLength(s)))))
  {
    var k := TokenLength(s);
    var ts := Split(AfterBlank(s, k));
    SplitStep(s);
    assert ([s[..k]] + ts)[1..] == ts;
    JoinSpaceCons([s[..k]] + ts);
  }

  lemma CollapseBlank(t: string)
    requires t != [] && IsWhitespace(t[0])
    ensures CollapseWhitespace(t) == " " + CollapseWhitespace(t[BlankLength(t)..])
  {
  }

  lemma {:induction false} CollapsePrefix(s: string, k: nat)
    requires k <= |s| && forall i :: 0 <= i < k ==> !IsWhitespace(s[i])
    ensures CollapseWhitespace(s) == s[..k] + CollapseWhitespace(s[k..])
    decreases k
  {
    if k > 0 {
      CollapsePrefix(s[1..], k - 1);
      assert s[1..][k - 1..] == s[k..];
      assert s[..k] == [s[0]] + s[1..][..k - 1];
    }
  }

  lemma AfterBlankOfTail(s: string, k: nat)
    requires k < |s| && IsWhitespace(s[k])
    ensures AfterBlank(s, k) == s[k..][BlankLength(s[k..])..]
  {
  }

  lemma CollapseStep(s: string)
    requires TokenLength(s) < |s|
    ensures CollapseWhitespace(s) == s[..TokenLength(s)] + (" " + CollapseWhitespace(AfterBlank(s, TokenLength(s))))
  {
    var k := TokenLength(s);
    CollapsePrefix(s, k);
    CollapseBlank(s[k..]);
    AfterBlankOfTail(s, k);
  }

  /** Splitting and joining with single spaces collapses every whitespace
      run, quoted or not, to one space, and keeps everything else. */
  lemma {:induction false} JoinSplit(s: string)
    ensures JoinSpace(Split(s)) == CollapseWhitespace(s)
    decreases |s|
  {
    var k := TokenLength(s);
    if k == |s| {
      CollapsePrefix(s, k);
      assert s[..k] == s && s[k..] == [];
    } else {
      JoinSplitStep(s);
      CollapseStep(s);
      JoinSplit(AfterBlank(s, k));
    }
  }

  lemma {:induction false} TokenLengthOfToken(a: string, rest: string)
    requires NoWhitespace(a) && (rest != [] ==> IsWhitespace(rest[0]))
    ensures TokenLength(a + rest) == |a|
    decreases |a|
  {
    if a == [] {
      assert a + rest == rest;
    } else {
      var s := a + rest;
      assert s[0] == a[0] && s[1..] == a[1..] + rest;
      TokenLengthOfToken(a[1..], rest);
    }
  }

  lemma {:induction false} BlankLengthOfRun(b: string, tail: string)
    requires forall i :: 0 <= i < |b| ==> IsWhitespace(b[i])
    requires tail != [] ==> !IsWhitespace(tail[0])
    ensures BlankLength(b + tail) == |b|
    decreases |b|
  {
    if b == [] {
      assert b + tail == tail;
    } else {
      var s := b + tail;
      assert s[0] == b[0] && s[1..] == b[1..] + tail;
      BlankLengthOfRun(b[1..], tail);
    }
  }

  /** A whitespace-free token followed by whitespace splits into the token
      and the split of what follows the whitespace run. */
  lemma SplitAtToken(a: string, u: string)
    requires NoWhitespace(a) && u != [] && IsWhitespace(u[0])
    ensures Split(a + u) == [a] + Split(u[BlankLength(u)..])
  {
    var s := a + u;
    TokenLengthOfToken(a, u);
    assert s[..|a|] == a;
    assert s[|a|..] == u;
    AfterBlankOfTail(s, |a|);
    SplitStep(s);
  }

  /** A whitespace-free token, a whitespace run and text that does not start
      with whitespace split into the token and the split of that text. */
  lemma SplitCons(a: string, b: string, tail: string)
    requires NoWhitespace(a) && b != [] && forall i :: 0 <= i < |b| ==> IsWhitespace(b[i])
    requires tail != [] ==> !IsWhitespace(tail[0])
    ensures Split(a + b + tail) == [a] + Split(tail)
  {
    var u := b + tail;
    assert a + b + tail == a + u;
    SplitAtToken(a, u);
    BlankLengthOfRun(b, tail);
    assert u[|b|..] == tail;
  }

  /** The join of tokens starts with the first character of the first token. */
  lemma JoinStart(ts: seq<string>)
    requires |ts| >= 1 && NoWhitespace(ts[0]) && (|ts| > 1 ==> ts[0] != "")
    ensures JoinSpace(ts) != [] ==> !IsWhitespace(JoinSpace(ts)[0])
  {
    if |ts| > 1 {
      JoinSpaceCons(ts);
    }
  }

  /** Joining whitespace-free tokens with single spaces and splitting again
      gives the tokens back, provided only the first and last are empty. */
  lemma {:induction false} SplitJoin(ts: seq<string>)
    requires |ts| >= 1
    requires forall i :: 0 <= i < |ts| ==> NoWhitespace(ts[i])
    requires forall i :: 0 < i < |ts| - 1 ==> ts[i] != ""
    ensures Split(JoinSpace(ts)) == ts
    decreases |ts|
  {
    if |ts| == 1 {
      assert ts[0] + [] == ts[0];
      TokenLengthOfToken(ts[0], []);
    } else {
      var tail := JoinSpace(ts[1..]);
      assert JoinSpace(ts) == ts[0] + " " + tail by { JoinSpaceCons(ts); }
      assert Split(ts[0] + " " + tail) == [ts[0]] + Split(tail) by {
        JoinStart(ts[1..]);
        SplitCons(ts[0], " ", tail);
      }
      assert Split(tail) == ts[1..] by { SplitJoin(ts[1..]); }
      assert [ts[0]] + ts[1..] == ts;
    }
  }

  /** Where the positional arguments end: the first index from `i` on whose
      token starts with `-`, or the number of tokens. */
  function ArgsEnd(tokens: seq<string>, i: nat): (j: nat)
    requires 1 <= i <= |tokens|
    ensures i <= j <= |tokens|
    ensures forall k :: i <= k < j ==> !StartsWithDash(tokens[k])
    ensures j < |tokens| ==> StartsWithDash(tokens[j])
    decreases |tokens| - i
  {
    if i == |tokens| || StartsWithDash(tokens[i]) then i else ArgsEnd(tokens, i + 1)
  }

  /** `parseCLI` with the positional-argument loop bounded by the number of
      tokens; the flag region is the rest of the tokens joined by spaces. */
  function ParseCommand(cli: string): (r: Result<CliCommand>)
    ensures r.Ok? ==> r.value.command == Split(cli)[0]
    ensures r.Ok? ==> forall a :: a in r.value.args ==> !StartsWithDash(a)
    ensures r.Ok? ==> NonEmptyKeys(r.value.flags)
  {
    var tokens := Split(cli);
    var j := ArgsEnd(tokens, 1);
    ArgsRun(tokens, j);
    match ParseFlags(JoinSpace(tokens[j..]))
    case Err(e) => Err(e)
    case Ok(flags) => Ok(CliCommand(tokens[0], tokens[1..j], flags))
  }

  /** index.ts:110-127, with `idx < tokens.length` added to the loop test. */
  method ParseCli(cli: string) returns (r: Result<CliCommand>)
    ensures r == ParseCommand(cli)
  {
    var tokens := Split(cli);
    var command := tokens[0];
    var args: seq<string> := [];
    var idx := 1;
    while idx < |tokens| && !StartsWithDash(tokens[idx])
      invariant 1 <= idx <= |tokens|
      invariant ArgsEnd(tokens, idx) == ArgsEnd(tokens, 1)
      invariant args == tokens[1..idx]
    {
      args := args + [tokens[idx]];
      idx := idx + 1;
    }
    var flags := ParseCliFlags(JoinSpace(tokens[idx..]));
    match flags {
      case Err(e) => r := Err(e);
      case Ok(f) => r := Ok(CliCommand(command, args, f));
    }
  }

  /** What a successful parse consists of: the command and the arguments are
      the first tokens, no argument starts with `-`, the argument run stops at
      the first token that does, and the flags are those of the remaining
      tokens joined by single spaces. A parse fails exactly when that flag
      region fails. */
  lemma ParsedCommandShape(cli: string)
    ensures var tokens := Split(cli);
      match ParseCommand(cli)
      case Ok(c) =>
        var j := 1 + |c.args|;
        j <= |tokens| && tokens[..j] == [c.command] + c.args
        && (forall a :: a in c.args ==> !StartsWithDash(a))
        && (j < |tokens| ==> StartsWithDash(tokens[j]))
        && ParseFlags(JoinSpace(tokens[j..])) == Ok(c.flags)
      case Err(e) => ParseFlags(JoinSpace(tokens[ArgsEnd(tokens, 1)..])) == Err(e)
  {
    var tokens := Split(cli);
    var j := ArgsEnd(tokens, 1);
    if ParseCommand(cli).Ok? {
      ArgsRun(tokens, j);
    }
  }

  /** The tokens before the first flag are the command and a run of
      arguments, none of which starts with `-`. */
  lemma ArgsRun(tokens: seq<string>, j: nat)
    requires 1 <= j <= |tokens|
    requires forall k :: 1 <= k < j ==> !StartsWithDash(tokens[k])
    ensures tokens[..j] == [tokens[0]] + tokens[1..j]
    ensures forall a :: a in tokens[1..j] ==> !StartsWithDash(a)
  {
    forall a | a in tokens[1..j] ensures !StartsWithDash(a) {
      var n :| 0 <= n < j - 1 && tokens[1..j][n] == a;
      assert a == tokens[1 + n];
    }
  }

  /** With no token starting with `-` after the command, every later token is
      an argument and there are no flags. */
  lemma NoDashTokenMeansNoFlags(cli: string)
    requires forall k :: 1 <= k < |Split(cli)| ==> !StartsWithDash(Split(cli)[k])
    ensures ParseCommand(cli) == Ok(CliCommand(Split(cli)[0], Split(cli)[1..], map[]))
  {
    var tokens := Split(cli);
    assert ArgsEnd(tokens, 1) == |tokens|;
    assert tokens[|tokens|..] == [];
    assert JoinSpace(tokens[|tokens|..]) == [];
    assert ScanFrom([], Start) == Start;
    assert Tokenize([]) == Ok([]);
    assert Assemble([], map[], None) == Ok(map[]);
    assert ParseFlags([]) == Ok(map[]);
    assert tokens[1..ArgsEnd(tokens, 1)] == tokens[1..];
  }

  /** Nothing is trimmed: a non-empty blank line is one whitespace run between
      two empty pieces, so the command is empty and there is one empty
      argument. */
  lemma BlankInput(s: string)
    requires s != [] && forall i :: 0 <= i < |s| ==> IsWhitespace(s[i])
    ensures ParseCommand(s) == Ok(CliCommand("", [""], map[]))
  {
    assert TokenLength(s) == 0;
    assert BlankLength(s) == |s|;
    assert s[|s|..] == [];
    assert Split(s) == [""] + Split([]);
    NoDashTokenMeansNoFlags(s);
  }

  /** index.ts:116-120 as written: reading past the last token gives
      `undefined`, and calling `startsWith` on it throws; `None` stands for
      that crash. */
  function ArgsEndAsWritten(tokens: seq<string>, i: nat): (r: Option<nat>)
    ensures r.Some? ==> i <= r.value < |tokens| && StartsWithDash(tokens[r.value])
    ensures r.Some? ==> forall k :: i <= k < r.value ==> !StartsWithDash(tokens[k])
    ensures r.None? ==> forall k :: i <= k < |tokens| ==> !StartsWithDash(tokens[k])
    decreases |tokens| - i
  {
    if i >= |tokens| then None
    else if StartsWithDash(tokens[i]) then Some(i)
    else ArgsEndAsWritten(tokens, i + 1)
  }

  /** The loop as written agrees with the bounded one when some token starts
      with `-`, and crashes exactly when none does. */
  lemma {:induction false} AsWrittenCrashesWithoutFlag(tokens: seq<string>, i: nat)
    requires 1 <= i <= |tokens|
    ensures ArgsEndAsWritten(tokens, i)
         == if ArgsEnd(tokens, i) < |tokens| then Some(ArgsEnd(tokens, i)) else None
    decreases |tokens| - i
  {
    if i < |tokens| && !StartsWithDash(tokens[i]) {
      AsWrittenCrashesWithoutFlag(tokens, i + 1);
    }
  }
}
