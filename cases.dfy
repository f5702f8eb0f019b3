/** The scenarios of index.spec.ts, stated for every command, argument, flag
    name and value of the same shape as the test's own strings. Each scenario
    is proved in three steps: how the command line splits into tokens, what
    the flag region parses to, and how the two combine into the result of
    `ParseCommand`. */
module Cases {
  import opened Results
  import opened Strings
  import opened Tokenizer
  import opened Classifier
  import opened Flags
  import opened Cli

  /** Printable ASCII other than the space. */
  predicate Visible(s: string)
  {
    forall i :: 0 <= i < |s| ==> '!' <= s[i] <= '~'
  }

  /** A piece of the command line that the split keeps whole. */
  predicate Token(s: string)
  {
    s != [] && Visible(s)
  }

  /** A token that the flag scan copies unchanged: no quote, no backslash. */
  predicate Word(s: string)
  {
    Token(s) && Plain(s)
  }

  /** A word that is not a flag. */
  predicate Positional(s: string)
  {
    Word(s) && s[0] != '-'
  }

  /** A flag name: a word without `=`. */
  predicate Name(s: string)
  {
    Word(s) && '=' !in s
  }

  /** A one-letter flag name. */
  predicate Letter(c: char)
  {
    Name([c]) && c != '-'
  }

  lemma VisibleFacts(s: string)
    requires Visible(s)
    ensures NoWhitespace(s) && NoLineTerminator(s)
  {
  }

  // Splitting a command line written with single spaces.

  lemma SplitTokens(tokens: seq<string>)
    requires |tokens| >= 1 && forall i :: 0 <= i < |tokens| ==> Token(tokens[i])
    ensures Split(JoinSpace(tokens)) == tokens
  {
    forall i | 0 <= i < |tokens| ensures NoWhitespace(tokens[i]) {
      VisibleFacts(tokens[i]);
    }
    SplitJoin(tokens);
  }

  lemma Join3(a: string, b: string, c: string)
    ensures JoinSpace([a, b, c]) == a + " " + b + " " + c
  {
    JoinSnoc([a], b);
    JoinSnoc([a, b], c);
    assert [a] + [b] == [a, b] && [a, b] + [c] == [a, b, c];
  }

  lemma Join4(a: string, b: string, c: string, d: string)
    ensures JoinSpace([a, b, c, d]) == a + " " + b + " " + c + " " + d
  {
    Join3(a, b, c);
    JoinSnoc([a, b, c], d);
    assert [a, b, c] + [d] == [a, b, c, d];
  }

  lemma Join5(a: string, b: string, c: string, d: string, e: string)
    ensures JoinSpace([a, b, c, d, e]) == a + " " + b + " " + c + " " + d + " " + e
  {
    Join4(a, b, c, d);
    JoinSnoc([a, b, c, d], e);
    assert [a, b, c, d] + [e] == [a, b, c, d, e];
  }

  lemma Join6(a: string, b: string, c: string, d: string, e: string, f: string)
    ensures JoinSpace([a, b, c, d, e, f]) == a + " " + b + " " + c + " " + d + " " + e + " " + f
  {
    Join5(a, b, c, d, e);
    JoinSnoc([a, b, c, d, e], f);
    assert [a, b, c, d, e] + [f] == [a, b, c, d, e, f];
  }

  lemma Join8(a: string, b: string, c: string, d: string, e: string, f: string, g: string, h: string)
    ensures JoinSpace([a, b, c, d, e, f, g, h])
         == a + " " + b + " " + c + " " + d + " " + e + " " + f + " " + g + " " + h
  {
    Join6(a, b, c, d, e, f);
    JoinSnoc([a, b, c, d, e, f], g);
    assert [a, b, c, d, e, f] + [g] == [a, b, c, d, e, f, g];
    JoinSnoc([a, b, c, d, e, f, g], h);
    assert [a, b, c, d, e, f, g] + [h] == [a, b, c, d, e, f, g, h];
  }

  lemma SplitLine3(cli: string, a: string, b: string, c: string)
    requires Token(a) && Token(b) && Token(c)
    requires cli == a + " " + b + " " + c
    ensures Split(cli) == [a] + [b] + [c]
  {
    Join3(a, b, c);
    SplitTokens([a, b, c]);
  }

  lemma SplitLine4(cli: string, a: string, b: string, c: string, d: string)
    requires Token(a) && Token(b) && Token(c) && Token(d)
    requires cli == a + " " + b + " " + c + " " + d
    ensures Split(cli) == [a] + [b] + [c, d]
  {
    Join4(a, b, c, d);
    SplitTokens([a, b, c, d]);
    assert [a, b, c, d] == [a] + [b] + [c, d];
  }

  lemma SplitLine5(cli: string, a: string, b: string, c: string, d: string, e: string)
    requires Token(a) && Token(b) && Token(c) && Token(d) && Token(e)
    requires cli == a + " " + b + " " + c + " " + d + " " + e
    ensures Split(cli) == [a] + [b] + [c, d, e]
  {
    Join5(a, b, c, d, e);
    SplitTokens([a, b, c, d, e]);
    assert [a, b, c, d, e] == [a] + [b] + [c, d, e];
  }

  lemma SplitLine6(cli: string, a: string, b: string, c: string, d: string, e: string, f: string)
    requires Token(a) && Token(b) && Token(c) && Token(d) && Token(e) && Token(f)
    requires cli == a + " " + b + " " + c + " " + d + " " + e + " " + f
    ensures Split(cli) == [a] + [b] + [c, d, e, f]
  {
    Join6(a, b, c, d, e, f);
    SplitTokens([a, b, c, d, e, f]);
    assert [a, b, c, d, e, f] == [a] + [b] + [c, d, e, f];
  }

  lemma SplitLine8(cli: string, a: string, b: string, c: string, d: string, e: string, f: string, g: string, h: string)
    requires Token(a) && Token(b) && Token(c) && Token(d) && Token(e) && Token(f) && Token(g) && Token(h)
    requires cli == a + " " + b + " " + c + " " + d + " " + e + " " + f + " " + g + " " + h
    ensures Split(cli) == [a] + [b] + [c, d, e, f, g, h]
  {
    Join8(a, b, c, d, e, f, g, h);
    SplitTokens([a, b, c, d, e, f, g, h]);
    assert [a, b, c, d, e, f, g, h] == [a] + [b] + [c, d, e, f, g, h];
  }

  // Combining the split with the flag region.

  lemma CommandAt(cli: string, tokens: seq<string>, j: nat, r: Result<FlagMap>)
    requires Split(cli) == tokens && 1 <= j <= |tokens|
    requires forall k :: 1 <= k < j ==> !StartsWithDash(tokens[k])
    requires j < |tokens| ==> StartsWithDash(tokens[j])
    requires ParseFlags(JoinSpace(tokens[j..])) == r
    ensures r.Ok? ==> ParseCommand(cli) == Ok(CliCommand(tokens[0], tokens[1..j], r.value))
    ensures r.Err? ==> ParseCommand(cli) == Err(r.error)
  {
    var e := ArgsEnd(tokens, 1);
    if e < j {
      assert false;
    } else if j < e {
      assert false;
    }
  }

  /** The command is the first token, the arguments run up to the first token
      with a dash, and the rest, joined again, is what the flag parser sees. */
  lemma {:induction false} CommandOf(cli: string, cmd: string, args: seq<string>, raw: seq<string>, r: Result<FlagMap>)
    requires Split(cli) == [cmd] + args + raw
    requires forall i :: 0 <= i < |args| ==> !StartsWithDash(args[i])
    requires raw != [] ==> StartsWithDash(raw[0])
    requires ParseFlags(JoinSpace(raw)) == r
    ensures r.Ok? ==> ParseCommand(cli) == Ok(CliCommand(cmd, args, r.value))
    ensures r.Err? ==> ParseCommand(cli) == Err(r.error)
  {
    var tokens := Split(cli);
    var j := 1 + |args|;
    assert tokens[1..j] == args && tokens[j..] == raw;
    forall k | 1 <= k < j ensures !StartsWithDash(tokens[k]) {
      assert tokens[k] == args[k - 1];
    }
    if j < |tokens| {
      assert tokens[j] == raw[0];
    }
    CommandAt(cli, tokens, j, r);
  }

  /** A command and one argument, then the flag region. */
  lemma ArgCommand(cli: string, cmd: string, arg: string, raw: seq<string>, r: Result<FlagMap>)
    requires Split(cli) == [cmd] + [arg] + raw && !StartsWithDash(arg)
    requires raw != [] && StartsWithDash(raw[0])
    requires ParseFlags(JoinSpace(raw)) == r
    ensures r.Ok? ==> ParseCommand(cli) == Ok(CliCommand(cmd, [arg], r.value))
    ensures r.Err? ==> ParseCommand(cli) == Err(r.error)
  {
    CommandOf(cli, cmd, [arg], raw, r);
  }

  // How the four patterns classify fragments built from names and values.

  lemma LongFlag(f: string, k: string)
    requires Name(k) && f == "--" + k
    ensures Classify(f) == Standalone(k) && Word(f)
  {
    VisibleFacts(k);
    ClassifyLongStandalone(k);
  }

  lemma LongValueFlag(f: string, k: string, v: string)
    requires Name(k) && Visible(v) && f == "--" + k + "=" + v
    ensures Classify(f) == WithValue(k, v) && Token(f)
    ensures Plain(v) ==> Word(f)
  {
    VisibleFacts(v);
    ClassifyLongValue(k, v);
  }

  lemma ShortFlag(f: string, c: char)
    requires Letter(c) && f == ['-', c]
    ensures Classify(f) == Standalone([c]) && Word(f)
  {
    ClassifyShortStandalone([c]);
    assert "-" + [c] == f;
  }

  lemma ShortValueFlag(f: string, c: char, v: string)
    requires Letter(c) && Visible(v) && f == ['-', c, '='] + v
    ensures Classify(f) == WithValue([c], v) && Token(f)
    ensures Plain(v) ==> Word(f)
  {
    VisibleFacts(v);
    ClassifyShortValue(c, v);
  }

  // Flag regions made of words only.

  predicate Words(ts: seq<string>)
  {
    forall i :: 0 <= i < |ts| ==> Word(ts[i])
  }

  lemma Words2(a: string, b: string)
    requires Word(a) && Word(b)
    ensures Words([a, b])
  {
  }

  lemma Words3(a: string, b: string, c: string)
    requires Word(a) && Word(b) && Word(c)
    ensures Words([a, b, c])
  {
  }

  lemma Words4(a: string, b: string, c: string, d: string)
    requires Word(a) && Word(b) && Word(c) && Word(d)
    ensures Words([a, b, c, d])
  {
  }

  lemma Words6(a: string, b: string, c: string, d: string, e: string, f: string)
    requires Word(a) && Word(b) && Word(c) && Word(d) && Word(e) && Word(f)
    ensures Words([a, b, c, d, e, f])
  {
  }

  lemma PlainRegion(frags: seq<string>, flags: FlagMap)
    requires Words(frags)
    requires Assemble(frags, map[], None) == Ok(flags)
    ensures ParseFlags(JoinSpace(frags)) == Ok(flags)
  {
    TokenizePlain(frags);
  }

  lemma StandaloneThenValue(f: string, k: string, v: string)
    requires Classify(f) == Standalone(k) && Word(f) && Positional(v)
    ensures ParseFlags(JoinSpace([f, v])) == Ok(map[k := [v]])
  {
    assert Assemble([f, v], map[], None) == Ok(map[k := [v]]) by {
      OpenFlagCollectsValues(f, k, [v], map[], None);
      Two(f, v);
      FirstKey(k, [v]);
    }
    Words2(f, v);
    PlainRegion([f, v], map[k := [v]]);
  }

  /** A key not yet in the map gets exactly the values appended. */
  lemma NewKey(m: FlagMap, k: string, vs: seq<string>)
    requires k !in m
    ensures m[k := Values(m, k) + vs] == m[k := vs]
  {
    assert Values(m, k) + vs == vs;
  }

  /** The first values of a key in an empty map. */
  lemma FirstKey(k: string, vs: seq<string>)
    ensures map[][k := Values(map[], k) + vs] == map[k := vs]
  {
    assert Values(map[], k) + vs == vs;
  }

  /** Appending to a key twice is appending the concatenation. */
  lemma MoreValues(k: string, vs: seq<string>, ws: seq<string>)
    ensures map[k := vs][k := Values(map[k := vs], k) + ws] == map[k := vs + ws]
  {
    assert Values(map[k := vs], k) == vs;
  }

  lemma Two(a: string, b: string)
    ensures [a] + [b] == [a, b]
  {
  }

  lemma Cons3(a: string, b: string, c: string)
    ensures [a, b, c] == [a] + ([b] + [c])
  {
  }

  lemma Three(a: string, b: string, c: string)
    ensures [a] + [b] + [c] == [a, b, c]
  {
  }

  lemma Four(a: string, b: string, c: string, d: string)
    ensures [a, b, c, d] == [a] + [] + ([b] + [c] + ([d] + []))
  {
  }

  lemma Six(a: string, b: string, c: string, d: string, e: string, f: string)
    ensures [a, b, c, d, e, f] == [a] + [b] + ([c] + [d] + ([e] + [f]))
  {
  }

  /** Two more groups of the same open flag, one value each. */
  lemma RepeatedTail(f: string, k: string, vs: seq<string>, b: string, c: string)
    requires Classify(f) == Standalone(k) && Classify(b).Unmatched? && Classify(c).Unmatched?
    ensures Assemble([f] + [b] + ([f] + [c]), map[k := vs], Some(k)) == Ok(map[k := vs + [b] + [c]])
  {
    OpenFlagGroup(f, k, [b], [f] + [c], map[k := vs], Some(k));
    MoreValues(k, vs, [b]);
    OpenFlagCollectsValues(f, k, [c], map[k := vs + [b]], Some(k));
    MoreValues(k, vs + [b], [c]);
  }

  lemma RepeatedAssemble(f: string, k: string, a: string, b: string, c: string)
    requires Classify(f) == Standalone(k)
    requires Classify(a).Unmatched? && Classify(b).Unmatched? && Classify(c).Unmatched?
    ensures Assemble([f, a, f, b, f, c], map[], None) == Ok(map[k := [a, b, c]])
  {
    Six(f, a, f, b, f, c);
    OpenFlagGroup(f, k, [a], [f] + [b] + ([f] + [c]), map[], None);
    FirstKey(k, [a]);
    RepeatedTail(f, k, [a], b, c);
    Three(a, b, c);
  }

  lemma RepeatedRegion(f: string, k: string, a: string, b: string, c: string)
    requires Classify(f) == Standalone(k) && Word(f) && Positional(a) && Positional(b) && Positional(c)
    ensures ParseFlags(JoinSpace([f, a, f, b, f, c])) == Ok(map[k := [a, b, c]])
  {
    RepeatedAssemble(f, k, a, b, c);
    Words6(f, a, f, b, f, c);
    PlainRegion([f, a, f, b, f, c], map[k := [a, b, c]]);
  }

  lemma ValueRegion(f: string, k: string, v: string)
    requires Classify(f) == WithValue(k, v) && Word(f)
    ensures ParseFlags(JoinSpace([f])) == Ok(map[k := [v]])
  {
    ValueFlagStep(f, k, v, [], map[], None);
    assert [f] + [] == [f];
    assert Values(map[], k) + [v] == [v];
    PlainRegion([f], map[k := [v]]);
  }

  lemma MixedAssemble(f1: string, f2: string, k: string, a: string, b: string)
    requires Classify(f1) == WithValue(k, a) && Classify(f2) == Standalone(k) && Classify(b).Unmatched?
    ensures Assemble([f1, f2, b], map[], None) == Ok(map[k := [a, b]])
  {
    Cons3(f1, f2, b);
    ValueFlagStep(f1, k, a, [f2] + [b], map[], None);
    FirstKey(k, [a]);
    OpenFlagCollectsValues(f2, k, [b], map[k := [a]], None);
    MoreValues(k, [a], [b]);
    Two(a, b);
  }

  lemma MixedRegion(f1: string, f2: string, k: string, a: string, b: string)
    requires Classify(f1) == WithValue(k, a) && Classify(f2) == Standalone(k)
    requires Word(f1) && Word(f2) && Positional(b)
    ensures ParseFlags(JoinSpace([f1, f2, b])) == Ok(map[k := [a, b]])
  {
    MixedAssemble(f1, f2, k, a, b);
    Words3(f1, f2, b);
    PlainRegion([f1, f2, b], map[k := [a, b]]);
  }

  /** A second short flag with one value, then a short flag with `=`. */
  lemma ShortFlagsTail(f2: string, d: string, f3: string, x: char, y: char, z: char, b: string)
    requires Classify(f2) == Standalone([y]) && Classify(d).Unmatched? && Classify(f3) == WithValue([z], b)
    requires x != y && y != z && x != z
    ensures Assemble([f2] + [d] + ([f3] + []), map[[x] := []], Some([x]))
         == Ok(map[[x] := [], [y] := [d], [z] := [b]])
  {
    var m1: FlagMap := map[[x] := []];
    OpenFlagGroup(f2, [y], [d], [f3] + [], m1, Some([x]));
    NewKey(m1, [y], [d]);
    var m2 := m1[[y] := [d]];
    ValueFlagStep(f3, [z], b, [], m2, Some([y]));
    NewKey(m2, [z], [b]);
  }

  lemma ShortFlagsAssemble(f1: string, f2: string, d: string, f3: string, x: char, y: char, z: char, b: string)
    requires Classify(f1) == Standalone([x]) && Classify(f2) == Standalone([y])
    requires Classify(d).Unmatched? && Classify(f3) == WithValue([z], b)
    requires x != y && y != z && x != z
    ensures Assemble([f1, f2, d, f3], map[], None) == Ok(map[[x] := [], [y] := [d], [z] := [b]])
  {
    Four(f1, f2, d, f3);
    OpenFlagGroup(f1, [x], [], [f2] + [d] + ([f3] + []), map[], None);
    FirstKey([x], []);
    ShortFlagsTail(f2, d, f3, x, y, z, b);
  }

  lemma ShortFlagsRegion(f1: string, f2: string, d: string, f3: string, x: char, y: char, z: char, b: string)
    requires Classify(f1) == Standalone([x]) && Classify(f2) == Standalone([y]) && Classify(f3) == WithValue([z], b)
    requires Word(f1) && Word(f2) && Positional(d) && Word(f3)
    requires x != y && y != z && x != z
    ensures ParseFlags(JoinSpace([f1, f2, d, f3])) == Ok(map[[x] := [], [y] := [d], [z] := [b]])
  {
    ShortFlagsAssemble(f1, f2, d, f3, x, y, z, b);
    Words4(f1, f2, d, f3);
    PlainRegion([f1, f2, d, f3], map[[x] := [], [y] := [d], [z] := [b]]);
  }

  lemma ValueThenBare(f: string, k: string, v: string, p: string)
    requires Classify(f) == WithValue(k, v) && Word(f) && Positional(p)
    ensures ParseFlags(JoinSpace([f, p])) == Err(InvalidFlagError(p))
  {
    TokenizePlain([f, p]);
    ValueFragmentClosesCursor(f, k, v, p, [], map[], None);
    assert [f, p] + [] == [f, p];
  }

  // Flag regions with quotes.

  /** A quoted text free of its quote and of backslashes: the quotes are
      dropped and the scan continues outside quotes. */
  lemma QuotedWhole(q: char, v: string, rest: string, done: seq<string>, cur: string)
    requires IsQuote(q) && q !in v && '\\' !in v
    ensures ScanFrom([q] + v + [q] + rest, ScanState(done, cur, None))
         == ScanFrom(rest, ScanState(done, cur + v, None))
  {
    assert [q] + v + [q] + rest == [q] + (v + ([q] + rest));
    OpenQuote(q, v + ([q] + rest), ScanState(done, cur, None));
    ScanQuoted(v, [q] + rest, ScanState(done, cur, Some(q)));
    CloseQuote(q, rest, ScanState(done, cur + v, Some(q)));
  }

  /** The same after a plain prefix, which is kept. */
  lemma QuotedScan(p: string, q: char, v: string, rest: string, done: seq<string>)
    requires Plain(p) && IsQuote(q) && q !in v && '\\' !in v
    ensures ScanFrom(p + [q] + v + [q] + rest, ScanState(done, "", None))
         == ScanFrom(rest, ScanState(done, p + v, None))
  {
    assert p + [q] + v + [q] + rest == p + ([q] + v + [q] + rest);
    ScanPlain(p, [q] + v + [q] + rest, ScanState(done, "", None));
    assert "" + p == p;
    QuotedWhole(q, v, rest, done, p);
  }

  /** As `QuotedScan`, with one escaped quote character inside the quotes. */
  lemma EscapedScan(p: string, q: char, a: string, b: string, rest: string, done: seq<string>)
    requires Plain(p) && Plain(a) && Plain(b) && IsQuote(q)
    ensures ScanFrom(p + [q] + a + ['\\', q] + b + [q] + rest, ScanState(done, "", None))
         == ScanFrom(rest, ScanState(done, p + a + [q] + b, None))
  {
    assert p + [q] + a + ['\\', q] + b + [q] + rest
        == p + ([q] + (a + (Escape([q]) + (b + ([q] + rest)))));
    ScanPlain(p, [q] + (a + (Escape([q]) + (b + ([q] + rest)))), ScanState(done, "", None));
    assert "" + p == p;
    OpenQuote(q, a + (Escape([q]) + (b + ([q] + rest))), ScanState(done, p, None));
    ScanQuoted(a, Escape([q]) + (b + ([q] + rest)), ScanState(done, p, Some(q)));
    ScanEscaped([q], b + ([q] + rest), ScanState(done, p + a, Some(q)));
    ScanQuoted(b, [q] + rest, ScanState(done, p + a + [q], Some(q)));
    CloseQuote(q, rest, ScanState(done, p + a + [q] + b, Some(q)));
  }

  /** A first fragment `p1'v1'` ends at the space after the closing quote. */
  lemma QuotedFirst(p1: string, v1: string, rest: string)
    requires Word(p1) && Word(v1)
    ensures ScanFrom(p1 + "'" + v1 + "'" + " " + rest, Start) == ScanFrom(rest, ScanState([p1 + v1], "", None))
  {
    assert p1 + "'" + v1 + "'" + " " + rest == p1 + ['\''] + v1 + ['\''] + (" " + rest);
    QuotedScan(p1, '\'', v1, " " + rest, []);
    SpaceFlushes(rest, [], p1 + v1);
    assert [] + [p1 + v1] == [p1 + v1];
  }

  /** Then a plain flag and a double-quoted value, which stays current. */
  lemma QuotedSecond(done: seq<string>, f2: string, v2: string)
    requires Word(f2) && Word(v2)
    ensures ScanFrom(f2 + " " + ("\"" + v2 + "\""), ScanState(done, "", None)) == ScanState(done + [f2], v2, None)
  {
    var t3 := ['"'] + v2 + ['"'] + [];
    assert f2 + " " + ("\"" + v2 + "\"") == f2 + (" " + t3);
    ScanPlain(f2, " " + t3, ScanState(done, "", None));
    assert "" + f2 == f2;
    SpaceFlushes(t3, done, f2);
    QuotedWhole('"', v2, [], done + [f2], "");
    assert "" + v2 == v2;
  }

  /** `--k1='v1' --k2 "v2"`: both quoted values lose their quotes. */
  lemma QuotesScan(p1: string, v1: string, f2: string, v2: string)
    requires Word(p1) && Word(v1) && Word(f2) && Word(v2)
    ensures ScanFrom(p1 + "'" + v1 + "'" + " " + f2 + " " + ("\"" + v2 + "\""), Start)
         == ScanState([p1 + v1, f2], v2, None)
  {
    var rest := f2 + " " + ("\"" + v2 + "\"");
    assert p1 + "'" + v1 + "'" + " " + f2 + " " + ("\"" + v2 + "\"") == p1 + "'" + v1 + "'" + " " + rest;
    QuotedFirst(p1, v1, rest);
    QuotedSecond([p1 + v1], f2, v2);
  }

  lemma QuotesRegion(t1: string, p1: string, k1: string, v1: string, f2: string, k2: string, t3: string, v2: string)
    requires Name(k1) && p1 == "--" + k1 + "=" && Word(v1) && t1 == p1 + "'" + v1 + "'"
    requires Name(k2) && f2 == "--" + k2 && Positional(v2) && t3 == "\"" + v2 + "\""
    requires k1 != k2
    ensures ParseFlags(JoinSpace([t1, f2, t3])) == Ok(map[k1 := [v1], k2 := [v2]])
  {
    LongFlag(f2, k2);
    assert Word(p1) by { LongValueFlag(p1, k1, ""); }
    Join3(t1, f2, t3);
    QuotesScan(p1, v1, f2, v2);
    FlushLast([p1 + v1, f2, v2], JoinSpace([t1, f2, t3]));
    LongValueFlag(p1 + v1, k1, v1);
    QuotesAssemble(p1 + v1, k1, v1, f2, k2, v2);
  }

  lemma QuotesAssemble(f1: string, k1: string, v1: string, f2: string, k2: string, v2: string)
    requires Classify(f1) == WithValue(k1, v1) && Classify(f2) == Standalone(k2) && Classify(v2).Unmatched?
    requires k1 != k2
    ensures Assemble([f1, f2, v2], map[], None) == Ok(map[k1 := [v1], k2 := [v2]])
  {
    Cons3(f1, f2, v2);
    ValueFlagStep(f1, k1, v1, [f2] + [v2], map[], None);
    FirstKey(k1, [v1]);
    OpenFlagCollectsValues(f2, k2, [v2], map[k1 := [v1]], None);
    NewKey(map[k1 := [v1]], k2, [v2]);
  }

  /** Two `=` flags in a row, each with its own key. */
  lemma TwoValuesAssemble(f1: string, k1: string, v1: string, f2: string, k2: string, v2: string)
    requires Classify(f1) == WithValue(k1, v1) && Classify(f2) == WithValue(k2, v2)
    requires k1 != k2
    ensures Assemble([f1, f2], map[], None) == Ok(map[k1 := [v1], k2 := [v2]])
  {
    assert [f1, f2] == [f1] + ([f2] + []);
    ValueFlagStep(f1, k1, v1, [f2] + [], map[], None);
    FirstKey(k1, [v1]);
    ValueFlagStep(f2, k2, v2, [], map[k1 := [v1]], None);
    NewKey(map[k1 := [v1]], k2, [v2]);
  }

  lemma Join2(a: string, b: string)
    ensures JoinSpace([a, b]) == a + " " + b
  {
    JoinSnoc([a], b);
    assert [a] + [b] == [a, b];
  }

  /** `--k1='a1\'b1' -c="a2\"b2"`: an escaped quote inside quotes is kept. */
  lemma EscapesScan(p1: string, a1: string, b1: string, p2: string, a2: string, b2: string)
    requires Plain(p1) && Plain(a1) && Plain(b1) && Plain(p2) && Plain(a2) && Plain(b2)
    ensures ScanFrom(p1 + "'" + a1 + "\\'" + b1 + "'" + " " + (p2 + "\"" + a2 + "\\\"" + b2 + "\""), Start)
         == ScanState([p1 + a1 + "'" + b1], p2 + a2 + "\"" + b2, None)
  {
    var t2 := p2 + "\"" + a2 + "\\\"" + b2 + "\"";
    EscapedFirst(p1, a1, b1, t2);
    EscapedLast([p1 + a1 + "'" + b1], p2, a2, b2);
  }

  lemma EscapedFirst(p1: string, a1: string, b1: string, rest: string)
    requires Plain(p1) && Plain(a1) && Plain(b1)
    ensures ScanFrom(p1 + "'" + a1 + "\\'" + b1 + "'" + " " + rest, Start)
         == ScanFrom(rest, ScanState([p1 + a1 + "'" + b1], "", None))
  {
    assert p1 + "'" + a1 + "\\'" + b1 + "'" + " " + rest == p1 + ['\''] + a1 + ['\\', '\''] + b1 + ['\''] + (" " + rest);
    EscapedScan(p1, '\'', a1, b1, " " + rest, []);
    SpaceFlushes(rest, [], p1 + a1 + "'" + b1);
    assert [] + [p1 + a1 + "'" + b1] == [p1 + a1 + "'" + b1];
  }

  lemma EscapedLast(done: seq<string>, p2: string, a2: string, b2: string)
    requires Plain(p2) && Plain(a2) && Plain(b2)
    ensures ScanFrom(p2 + "\"" + a2 + "\\\"" + b2 + "\"", ScanState(done, "", None))
         == ScanState(done, p2 + a2 + "\"" + b2, None)
  {
    assert p2 + "\"" + a2 + "\\\"" + b2 + "\"" == p2 + ['"'] + a2 + ['\\', '"'] + b2 + ['"'] + [];
    EscapedScan(p2, '"', a2, b2, [], done);
  }

  lemma EscapesRegion(t1: string, k1: string, a1: string, b1: string, t2: string, c: char, a2: string, b2: string)
    requires Name(k1) && Word(a1) && Word(b1) && t1 == "--" + k1 + "=" + "'" + a1 + "\\'" + b1 + "'"
    requires Letter(c) && Word(a2) && Word(b2) && t2 == ['-', c, '='] + "\"" + a2 + "\\\"" + b2 + "\""
    requires k1 != [c]
    ensures ParseFlags(JoinSpace([t1, t2])) == Ok(map[k1 := [a1 + "'" + b1], [c] := [a2 + "\"" + b2]])
  {
    var p1 := "--" + k1 + "=";
    var p2 := ['-', c, '='];
    assert Word(p1) by { LongValueFlag(p1, k1, ""); }
    assert Word(p2) by { ShortValueFlag(p2, c, ""); }
    assert t1 == p1 + "'" + a1 + "\\'" + b1 + "'";
    assert t2 == p2 + "\"" + a2 + "\\\"" + b2 + "\"";
    Join2(t1, t2);
    EscapesScan(p1, a1, b1, p2, a2, b2);
    var v1 := a1 + "'" + b1;
    var v2 := a2 + "\"" + b2;
    assert p1 + a1 + "'" + b1 == p1 + v1;
    assert p2 + a2 + "\"" + b2 == p2 + v2;
    FlushLast([p1 + v1, p2 + v2], JoinSpace([t1, t2]));
    VisibleConcat3(a1, "'", b1);
    VisibleConcat3(a2, "\"", b2);
    LongValueFlag(p1 + v1, k1, v1);
    ShortValueFlag(p2 + v2, c, v2);
    TwoValuesAssemble(p1 + v1, k1, v1, p2 + v2, [c], v2);
  }

  lemma VisibleConcat3(a: string, b: string, c: string)
    requires Visible(a) && Visible(b) && Visible(c)
    ensures Visible(a + b + c)
  {
  }

  /** A quote left open: the partial fragment is reported. */
  lemma UnclosedRegion(f: string, v: string)
    requires Word(f) && Word(v)
    ensures ParseFlags(JoinSpace([f, "'" + v])) == Err(InvalidFlagError(v))
  {
    Join2(f, "'" + v);
    var s := JoinSpace([f, "'" + v]);
    assert s == f + (" " + (['\''] + (v + [])));
    ScanPlain(f, " " + (['\''] + (v + [])), Start);
    assert Start.(curr := Start.curr + f) == ScanState([], f, None);
    SpaceFlushes(['\''] + (v + []), [], f);
    assert [] + [f] == [f];
    OpenQuote('\'', v + [], ScanState([f], "", None));
    ScanQuoted(v, [], ScanState([f], "", Some('\'')));
    assert "" + v == v;
    assert ScanFrom(s, Start) == ScanState([f], v, Some('\''));
    assert Tokenize(s) == Err(InvalidFlagError(v));
  }

  // The scenarios, from the command line to the parsed command.

  /** index.spec.ts:46-54: a flag followed by a value collects that value. */
  lemma FlagThenValue(cli: string, cmd: string, arg: string, f: string, k: string, v: string)
    requires Word(cmd) && Positional(arg) && Name(k) && f == "--" + k && Positional(v)
    requires cli == cmd + " " + arg + " " + f + " " + v
    ensures ParseCommand(cli) == Ok(CliCommand(cmd, [arg], map[k := [v]]))
  {
    LongFlag(f, k);
    SplitLine4(cli, cmd, arg, f, v);
    StandaloneThenValue(f, k, v);
    ArgCommand(cli, cmd, arg, [f, v], Ok(map[k := [v]]));
  }

  /** index.spec.ts:56-64: a repeated flag collects its values in order. */
  lemma RepeatedFlag(cli: string, cmd: string, arg: string, f: string, k: string, a: string, b: string, c: string)
    requires Word(cmd) && Positional(arg) && Name(k) && f == "--" + k
    requires Positional(a) && Positional(b) && Positional(c)
    requires cli == cmd + " " + arg + " " + f + " " + a + " " + f + " " + b + " " + f + " " + c
    ensures ParseCommand(cli) == Ok(CliCommand(cmd, [arg], map[k := [a, b, c]]))
  {
    LongFlag(f, k);
    SplitLine8(cli, cmd, arg, f, a, f, b, f, c);
    RepeatedRegion(f, k, a, b, c);
    ArgCommand(cli, cmd, arg, [f, a, f, b, f, c], Ok(map[k := [a, b, c]]));
  }

  /** index.spec.ts:66-74 and 142-150: `--name=value` gives one value, which
      may be empty. */
  lemma LongEquals(cli: string, cmd: string, arg: string, f: string, k: string, v: string)
    requires Word(cmd) && Positional(arg) && Name(k) && Visible(v) && Plain(v) && f == "--" + k + "=" + v
    requires cli == cmd + " " + arg + " " + f
    ensures ParseCommand(cli) == Ok(CliCommand(cmd, [arg], map[k := [v]]))
  {
    LongValueFlag(f, k, v);
    SplitLine3(cli, cmd, arg, f);
    ValueRegion(f, k, v);
    ArgCommand(cli, cmd, arg, [f], Ok(map[k := [v]]));
  }

  /** index.spec.ts:76-84: both spellings of the same flag add to one list. */
  lemma MixedStyle(cli: string, cmd: string, arg: string, f1: string, f2: string, k: string, a: string, b: string)
    requires Word(cmd) && Positional(arg) && Name(k) && Visible(a) && Plain(a) && Positional(b)
    requires f1 == "--" + k + "=" + a && f2 == "--" + k
    requires cli == cmd + " " + arg + " " + f1 + " " + f2 + " " + b
    ensures ParseCommand(cli) == Ok(CliCommand(cmd, [arg], map[k := [a, b]]))
  {
    LongValueFlag(f1, k, a);
    LongFlag(f2, k);
    SplitLine5(cli, cmd, arg, f1, f2, b);
    MixedRegion(f1, f2, k, a, b);
    ArgCommand(cli, cmd, arg, [f1, f2, b], Ok(map[k := [a, b]]));
  }

  /** index.spec.ts:86-94: one-letter flags, with and without values. */
  lemma ShortFlags(cli: string, cmd: string, arg: string, f1: string, f2: string, d: string, f3: string,
                   x: char, y: char, z: char, b: string)
    requires Word(cmd) && Positional(arg) && Letter(x) && Letter(y) && Letter(z) && x != y && y != z && x != z
    requires Positional(d) && Visible(b) && Plain(b)
    requires f1 == ['-', x] && f2 == ['-', y] && f3 == ['-', z, '='] + b
    requires cli == cmd + " " + arg + " " + f1 + " " + f2 + " " + d + " " + f3
    ensures ParseCommand(cli) == Ok(CliCommand(cmd, [arg], map[[x] := [], [y] := [d], [z] := [b]]))
  {
    ShortFlag(f1, x);
    ShortFlag(f2, y);
    ShortValueFlag(f3, z, b);
    SplitLine6(cli, cmd, arg, f1, f2, d, f3);
    ShortFlagsRegion(f1, f2, d, f3, x, y, z, b);
    ArgCommand(cli, cmd, arg, [f1, f2, d, f3], Ok(map[[x] := [], [y] := [d], [z] := [b]]));
  }

  /** index.spec.ts:96-104: quotes around a value are dropped. */
  lemma QuotedValues(cli: string, cmd: string, arg: string, t1: string, k1: string, v1: string,
                     f2: string, k2: string, t3: string, v2: string)
    requires Word(cmd) && Positional(arg) && Name(k1) && Word(v1) && Name(k2) && Positional(v2) && k1 != k2
    requires t1 == "--" + k1 + "=" + "'" + v1 + "'" && f2 == "--" + k2 && t3 == "\"" + v2 + "\""
    requires cli == cmd + " " + arg + " " + t1 + " " + f2 + " " + t3
    ensures ParseCommand(cli) == Ok(CliCommand(cmd, [arg], map[k1 := [v1], k2 := [v2]]))
  {
    var p1 := "--" + k1 + "=";
    assert t1 == p1 + "'" + v1 + "'";
    LongFlag(f2, k2);
    assert Token(t1) by {
      LongValueFlag(p1, k1, "");
      VisibleConcat3(p1, "'", v1);
      VisibleConcat3(p1 + "'" + v1, "'", "");
    }
    assert Token(t3) by { VisibleConcat3("\"", v2, "\""); }
    SplitLine5(cli, cmd, arg, t1, f2, t3);
    QuotesRegion(t1, p1, k1, v1, f2, k2, t3, v2);
    ArgCommand(cli, cmd, arg, [t1, f2, t3], Ok(map[k1 := [v1], k2 := [v2]]));
  }

  /** index.spec.ts:106-114: a backslash inside quotes keeps the quote after it. */
  lemma EscapedQuotes(cli: string, cmd: string, arg: string, t1: string, k1: string, a1: string, b1: string,
                      t2: string, c: char, a2: string, b2: string)
    requires Word(cmd) && Positional(arg) && Name(k1) && Word(a1) && Word(b1)
    requires Letter(c) && Word(a2) && Word(b2) && k1 != [c]
    requires t1 == "--" + k1 + "=" + "'" + a1 + "\\'" + b1 + "'"
    requires t2 == ['-', c, '='] + "\"" + a2 + "\\\"" + b2 + "\""
    requires cli == cmd + " " + arg + " " + t1 + " " + t2
    ensures ParseCommand(cli) == Ok(CliCommand(cmd, [arg], map[k1 := [a1 + "'" + b1], [c] := [a2 + "\"" + b2]]))
  {
    EscapeTokens(t1, k1, a1, b1, t2, c, a2, b2);
    SplitLine4(cli, cmd, arg, t1, t2);
    EscapesRegion(t1, k1, a1, b1, t2, c, a2, b2);
    var r: Result<FlagMap> := Ok(map[k1 := [a1 + "'" + b1], [c] := [a2 + "\"" + b2]]);
    ArgCommand(cli, cmd, arg, [t1, t2], r);
  }

  lemma EscapeTokens(t1: string, k1: string, a1: string, b1: string, t2: string, c: char, a2: string, b2: string)
    requires Name(k1) && Word(a1) && Word(b1) && t1 == "--" + k1 + "=" + "'" + a1 + "\\'" + b1 + "'"
    requires Letter(c) && Word(a2) && Word(b2) && t2 == ['-', c, '='] + "\"" + a2 + "\\\"" + b2 + "\""
    ensures Token(t1) && Token(t2) && StartsWithDash(t1)
  {
    var p1 := "--" + k1 + "=";
    LongValueFlag(p1, k1, "");
    EscapedToken(t1, p1, '\'', a1, b1);
    var p2 := ['-', c, '='];
    ShortValueFlag(p2, c, "");
    EscapedToken(t2, p2, '"', a2, b2);
  }

  lemma EscapedToken(t: string, p: string, q: char, a: string, b: string)
    requires Word(p) && IsQuote(q) && Word(a) && Word(b) && t == p + [q] + a + ['\\', q] + b + [q]
    ensures Token(t) && t[0] == p[0]
  {
    assert Visible([q]) && Visible(['\\', q]);
    VisibleConcat3(p, [q], a);
    VisibleConcat3(p + [q] + a, ['\\', q], b);
    VisibleConcat3(p + [q] + a + ['\\', q] + b, [q], "");
  }

  /** index.spec.ts:116-120: a quote that is never closed is an error. */
  lemma UnclosedQuote(cli: string, cmd: string, arg: string, f: string, c: char, v: string)
    requires Word(cmd) && Positional(arg) && Letter(c) && f == ['-', c] && Word(v)
    requires cli == cmd + " " + arg + " " + f + " " + "'" + v
    ensures ParseCommand(cli) == Err(InvalidFlagError(v))
  {
    ShortFlag(f, c);
    assert Token("'" + v) by { VisibleConcat3("'", v, ""); }
    assert cli == cmd + " " + arg + " " + f + " " + ("'" + v);
    SplitLine4(cli, cmd, arg, f, "'" + v);
    UnclosedRegion(f, v);
    ArgCommand(cli, cmd, arg, [f, "'" + v], Err(InvalidFlagError(v)));
  }

  /** index.spec.ts:122-130: only the first `=` separates name and value. */
  lemma ShortEquals(cli: string, cmd: string, arg: string, f: string, c: char, v: string)
    requires Word(cmd) && Positional(arg) && Letter(c) && Visible(v) && Plain(v) && f == ['-', c, '='] + v
    requires cli == cmd + " " + arg + " " + f
    ensures ParseCommand(cli) == Ok(CliCommand(cmd, [arg], map[[c] := [v]]))
  {
    ShortValueFlag(f, c, v);
    SplitLine3(cli, cmd, arg, f);
    ValueRegion(f, [c], v);
    ArgCommand(cli, cmd, arg, [f], Ok(map[[c] := [v]]));
  }

  /** index.spec.ts:132-140: a value after a short flag may contain `=`. */
  lemma ShortThenValue(cli: string, cmd: string, arg: string, f: string, c: char, v: string)
    requires Word(cmd) && Positional(arg) && Letter(c) && f == ['-', c] && Positional(v)
    requires cli == cmd + " " + arg + " " + f + " " + v
    ensures ParseCommand(cli) == Ok(CliCommand(cmd, [arg], map[[c] := [v]]))
  {
    ShortFlag(f, c);
    SplitLine4(cli, cmd, arg, f, v);
    StandaloneThenValue(f, [c], v);
    ArgCommand(cli, cmd, arg, [f, v], Ok(map[[c] := [v]]));
  }

  /** index.spec.ts:152-156: a positional argument after `--name=value` is
      rejected, because that form closes the open flag. */
  lemma PositionalAfterValueFlag(cli: string, cmd: string, arg: string, f: string, k: string, v: string, p: string)
    requires Word(cmd) && Positional(arg) && Name(k) && Visible(v) && Plain(v) && f == "--" + k + "=" + v
    requires Positional(p)
    requires cli == cmd + " " + arg + " " + f + " " + p
    ensures ParseCommand(cli) == Err(InvalidFlagError(p))
  {
    LongValueFlag(f, k, v);
    SplitLine4(cli, cmd, arg, f, p);
    ValueThenBare(f, k, v, p);
    ArgCommand(cli, cmd, arg, [f, p], Err(InvalidFlagError(p)));
  }

  // Two consequences of splitting on whitespace before the flags are parsed.

  /** A non-empty run of whitespace characters. */
  predicate Blanks(ws: string)
  {
    ws != [] && forall i :: 0 <= i < |ws| ==> IsWhitespace(ws[i])
  }

  /** Any run of whitespace inside quotes, tabs and line breaks included,
      reaches the flag parser as one space, because the command line is split
      on whitespace first. */
  lemma QuotedBlanks(cli: string, cmd: string, t1: string, k: string, a: string, ws: string, t2: string, b: string)
    requires Word(cmd) && Name(k) && Word(a) && Word(b) && Blanks(ws)
    requires t1 == "--" + k + "=" + "'" + a && t2 == b + "'"
    requires cli == cmd + " " + t1 + ws + t2
    ensures ParseCommand(cli) == Ok(CliCommand(cmd, [], map[k := [a + " " + b]]))
  {
    var p := "--" + k + "=";
    OpenQuoteTokens(t1, p, k, a, t2, b);
    BlankSplit(cli, cmd, t1, ws, t2);
    QuotedBlanksRegion(t1, p, k, a, t2, b);
    FlagsCommand(cli, cmd, [t1, t2], Ok(map[k := [a + " " + b]]));
  }

  lemma OpenQuoteTokens(t1: string, p: string, k: string, a: string, t2: string, b: string)
    requires Name(k) && Word(a) && Word(b) && p == "--" + k + "="
    requires t1 == p + "'" + a && t2 == b + "'"
    ensures Word(p) && Token(t1) && Token(t2) && StartsWithDash(t1)
  {
    LongValueFlag(p, k, "");
    VisibleConcat3(p, "'", a);
    VisibleConcat3(b, "'", "");
    assert t1[0] == '-';
  }

  /** A command followed directly by the flag region. */
  lemma FlagsCommand(cli: string, cmd: string, raw: seq<string>, r: Result<FlagMap>)
    requires Split(cli) == [cmd] + raw
    requires raw != [] && StartsWithDash(raw[0])
    requires ParseFlags(JoinSpace(raw)) == r
    ensures r.Ok? ==> ParseCommand(cli) == Ok(CliCommand(cmd, [], r.value))
    ensures r.Err? ==> ParseCommand(cli) == Err(r.error)
  {
    assert [cmd] + [] + raw == [cmd] + raw;
    CommandOf(cli, cmd, [], raw, r);
  }

  lemma BlankSplit(cli: string, cmd: string, t1: string, ws: string, t2: string)
    requires Token(cmd) && Token(t1) && Token(t2) && Blanks(ws)
    requires cli == cmd + " " + t1 + ws + t2
    ensures Split(cli) == [cmd] + [t1, t2]
  {
    var tail := t1 + ws + t2;
    BlankTail(t1, ws, t2);
    VisibleFacts(cmd);
    Regroup(cmd, " ", t1, ws, t2);
    assert tail[0] == t1[0];
    SplitCons(cmd, " ", tail);
    Two(t1, t2);
  }

  lemma Regroup(a: string, b: string, c: string, d: string, e: string)
    ensures a + b + c + d + e == a + b + (c + d + e)
  {
  }

  lemma BlankTail(t1: string, ws: string, t2: string)
    requires Token(t1) && Token(t2) && Blanks(ws)
    ensures Split(t1 + ws + t2) == [t1] + [t2]
  {
    VisibleFacts(t1);
    VisibleFacts(t2);
    SplitTokens([t2]);
    assert JoinSpace([t2]) == t2;
    SplitCons(t1, ws, t2);
  }

  lemma QuotedBlanksRegion(t1: string, p: string, k: string, a: string, t2: string, b: string)
    requires Name(k) && p == "--" + k + "=" && Word(p) && Word(a) && Word(b)
    requires t1 == p + "'" + a && t2 == b + "'"
    ensures ParseFlags(JoinSpace([t1, t2])) == Ok(map[k := [a + " " + b]])
  {
    var v := a + " " + b;
    Join2(t1, t2);
    assert JoinSpace([t1, t2]) == p + ['\''] + v + ['\''] + [];
    QuotedScan(p, '\'', v, [], []);
    FlushLast([p + v], JoinSpace([t1, t2]));
    VisibleFacts(a);
    VisibleFacts(b);
    ClassifyLongValue(k, v);
    ValueFlagStep(p + v, k, v, [], map[], None);
    assert [p + v] + [] == [p + v];
    FirstKey(k, [v]);
  }

  /** A blank before the command leaves an empty command, and the program
      name becomes the first argument. */
  lemma LeadingBlank(cli: string, w: string)
    requires Positional(w) && cli == " " + w
    ensures ParseCommand(cli) == Ok(CliCommand("", [w], map[]))
  {
    VisibleFacts(w);
    assert JoinSpace(["", w]) == cli;
    SplitJoin(["", w]);
    NoDashTokenMeansNoFlags(cli);
    assert Split(cli)[1..] == [w];
  }
}
