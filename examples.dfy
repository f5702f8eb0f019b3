/** The cases of index.spec.ts with the test's own command lines, each an
    instance of a scenario of module `Cases` or, for the lines without flags,
    proved directly from the split. A short line is given as its literal and
    a `...Line` lemma spells it out as the pieces the scenario names; a long
    line is given directly as those pieces joined by single spaces. The
    `...Parts` lemmas check that the pieces have the shapes the scenario
    requires. */
module Examples {
  import opened Results
  import opened Strings
  import opened Flags
  import opened Cli
  import Tokenizer
  import Classifier
  import Cases

  // index.spec.ts:6-14: the empty command line.

  lemma ExampleEmpty(cli: string)
    requires cli == ""
    ensures ParseCommand(cli) == Ok(CliCommand("", [], map[]))
  {
    assert Split(cli) == [""];
    NoDashTokenMeansNoFlags(cli);
  }

  /** The loop of index.ts:118 as written reads past the only token of the
      empty line, so the call the test expects to succeed crashes. */
  lemma EmptyCrashesAsWritten(cli: string)
    requires cli == ""
    ensures ArgsEndAsWritten(Split(cli), 1) == None
    ensures ParseCommand(cli).Ok?
  {
    ExampleEmpty(cli);
  }

  /** index.ts:70-98 as written rejects the value of index.spec.ts:46-54: with
      no open flag to take it, `bar` is a fragment that is not a flag. */
  lemma FlagValueRejectedAsWritten(f: string, b: string)
    requires f == "--foo" && b == "bar"
    ensures AssembleAsWritten([f, b], map[]) == Err(InvalidFlagError(b))
  {
    Classifier.ClassifyLongStandalone("foo");
    assert f == "--" + "foo";
    assert !StartsWithDash(b);
    AsWrittenRejectsFlagValue(f, "foo", b, map[]);
  }

  // index.spec.ts:16-24: the command alone.

  lemma ExampleCommandOnly(cli: string)
    requires cli == "jest"
    ensures ParseCommand(cli) == Ok(CliCommand("jest", [], map[]))
  {
    Cases.SplitTokens(["jest"]);
    NoDashTokenMeansNoFlags(cli);
  }

  // index.spec.ts:26-34: one positional argument.

  lemma ExampleArgs(cli: string)
    requires cli == "jest src/*"
    ensures ParseCommand(cli) == Ok(CliCommand("jest", ["src/*"], map[]))
  {
    ArgsLine(cli);
    Cases.Join2("jest", "src/*");
    Cases.SplitTokens(["jest", "src/*"]);
    ArgsCommand(cli);
  }

  lemma ArgsLine(cli: string)
    requires cli == "jest src/*"
    ensures cli == "jest" + " " + "src/*" && Cases.Token("jest") && Cases.Token("src/*")
  {
  }

  lemma ArgsCommand(cli: string)
    requires Split(cli) == ["jest", "src/*"]
    ensures ParseCommand(cli) == Ok(CliCommand("jest", ["src/*"], map[]))
  {
    NoDashTokenMeansNoFlags(cli);
    assert Split(cli)[1..] == ["src/*"];
  }

  // index.spec.ts:36-44: several positional arguments.

  lemma ExampleManyArgs(cli: string)
    requires cli == "jest src/* bin/* docs/*"
    ensures ParseCommand(cli) == Ok(CliCommand("jest", ["src/*", "bin/*", "docs/*"], map[]))
  {
    ManyArgsLine(cli);
    Cases.Join4("jest", "src/*", "bin/*", "docs/*");
    Cases.SplitTokens(["jest", "src/*", "bin/*", "docs/*"]);
    ManyArgsCommand(cli);
  }

  lemma ManyArgsLine(cli: string)
    requires cli == "jest src/* bin/* docs/*"
    ensures cli == "jest" + " " + "src/*" + " " + "bin/*" + " " + "docs/*"
    ensures Cases.Token("jest") && Cases.Token("src/*") && Cases.Token("bin/*") && Cases.Token("docs/*")
  {
  }

  lemma ManyArgsCommand(cli: string)
    requires Split(cli) == ["jest", "src/*", "bin/*", "docs/*"]
    ensures ParseCommand(cli) == Ok(CliCommand("jest", ["src/*", "bin/*", "docs/*"], map[]))
  {
    NoDashTokenMeansNoFlags(cli);
    assert Split(cli)[1..] == ["src/*", "bin/*", "docs/*"];
  }

  // index.spec.ts:46-54: a long flag takes the next token as its value.

  lemma ExampleFlagValue(cli: string)
    requires cli == "jest src/* --foo bar"
    ensures ParseCommand(cli) == Ok(CliCommand("jest", ["src/*"], map["foo" := ["bar"]]))
  {
    FlagValueLine(cli);
    FlagValueParts();
    FlagValueParts2();
    Cases.FlagThenValue(cli, "jest", "src/*", "--foo", "foo", "bar");
  }

  lemma FlagValueLine(cli: string)
    requires cli == "jest src/* --foo bar"
    ensures cli == "jest" + " " + "src/*" + " " + "--foo" + " " + "bar"
  {
  }

  lemma FlagValueParts()
    ensures Cases.Word("jest")
    ensures Cases.Positional("src/*")
    ensures Cases.Name("foo")
    ensures Cases.Positional("bar")
  {
  }

  lemma FlagValueParts2()
    ensures "--foo" == "--" + "foo"
  {
  }

  // index.spec.ts:56-64: a repeated flag collects its values in order.

  lemma ExampleRepeatedFlag(cli: string)
    requires cli == "jest" + " " + "src/*" + " " + "--foo" + " " + "bar" + " " + "--foo" + " " + "baz" + " " + "--foo" + " " + "bal"
    ensures ParseCommand(cli) == Ok(CliCommand("jest", ["src/*"], map["foo" := ["bar", "baz", "bal"]]))
  {
    RepeatedFlagParts();
    RepeatedFlagParts2();
    Cases.RepeatedFlag(cli, "jest", "src/*", "--foo", "foo", "bar", "baz", "bal");
  }

  lemma RepeatedFlagParts()
    ensures Cases.Word("jest")
    ensures Cases.Positional("src/*")
    ensures Cases.Name("foo")
    ensures Cases.Positional("bar")
    ensures Cases.Positional("baz")
  {
  }

  lemma RepeatedFlagParts2()
    ensures Cases.Positional("bal")
    ensures "--foo" == "--" + "foo"
  {
  }

  // index.spec.ts:66-74: a long flag with its value after `=`.

  lemma ExampleEqualsValue(cli: string)
    requires cli == "jest src/* --foo=bar"
    ensures ParseCommand(cli) == Ok(CliCommand("jest", ["src/*"], map["foo" := ["bar"]]))
  {
    EqualsValueLine(cli);
    EqualsValueParts();
    EqualsValueParts2();
    Cases.LongEquals(cli, "jest", "src/*", "--foo=bar", "foo", "bar");
  }

  lemma EqualsValueLine(cli: string)
    requires cli == "jest src/* --foo=bar"
    ensures cli == "jest" + " " + "src/*" + " " + "--foo=bar"
  {
  }

  lemma EqualsValueParts()
    ensures Cases.Word("jest")
    ensures Cases.Positional("src/*")
    ensures Cases.Name("foo")
    ensures Cases.Visible("bar")
    ensures Tokenizer.Plain("bar")
  {
  }

  lemma EqualsValueParts2()
    ensures "--foo=bar" == "--" + "foo" + "=" + "bar"
  {
  }

  // index.spec.ts:76-84: both styles add to the same key.

  lemma ExampleMixedStyles(cli: string)
    requires cli == "jest src/* --foo=bar --foo baz"
    ensures ParseCommand(cli) == Ok(CliCommand("jest", ["src/*"], map["foo" := ["bar", "baz"]]))
  {
    MixedStylesLine(cli);
    MixedStylesParts();
    MixedStylesParts2();
    MixedStylesParts3();
    Cases.MixedStyle(cli, "jest", "src/*", "--foo=bar", "--foo", "foo", "bar", "baz");
  }

  lemma MixedStylesLine(cli: string)
    requires cli == "jest src/* --foo=bar --foo baz"
    ensures cli == "jest" + " " + "src/*" + " " + "--foo=bar" + " " + "--foo" + " " + "baz"
  {
  }

  lemma MixedStylesParts()
    ensures Cases.Word("jest")
    ensures Cases.Positional("src/*")
    ensures Cases.Name("foo")
    ensures Cases.Visible("bar")
    ensures Tokenizer.Plain("bar")
  {
  }

  lemma MixedStylesParts2()
    ensures Cases.Positional("baz")
    ensures "--foo=bar" == "--" + "foo" + "=" + "bar"
  {
  }

  lemma MixedStylesParts3()
    ensures "--foo" == "--" + "foo"
  {
  }

  // index.spec.ts:86-94: short flags, bare, with the next token, and with `=`.

  lemma ExampleShortFlags(cli: string)
    requires cli == "jest src/* -f -c d -a=b"
    ensures ParseCommand(cli) == Ok(CliCommand("jest", ["src/*"], map["f" := [], "c" := ["d"], "a" := ["b"]]))
  {
    ShortFlagsLine(cli);
    ShortFlagsParts();
    ShortFlagsParts2();
    Cases.ShortFlags(cli, "jest", "src/*", "-f", "-c", "d", "-a=b", 'f', 'c', 'a', "b");
  }

  lemma ShortFlagsLine(cli: string)
    requires cli == "jest src/* -f -c d -a=b"
    ensures cli == "jest" + " " + "src/*" + " " + "-f" + " " + "-c" + " " + "d" + " " + "-a=b"
  {
  }

  lemma ShortFlagsParts()
    ensures Cases.Word("jest")
    ensures Cases.Positional("src/*")
    ensures Cases.Letter('f')
    ensures Cases.Letter('c')
    ensures Cases.Letter('a')
    ensures Cases.Positional("d")
    ensures Cases.Visible("b")
  {
  }

  lemma ShortFlagsParts2()
    ensures Tokenizer.Plain("b")
    ensures "-f" == ['-', 'f']
    ensures "-c" == ['-', 'c']
    ensures "-a=b" == ['-', 'a', '='] + "b"
  {
  }

  // index.spec.ts:96-104: quotes around a value are dropped.

  lemma ExampleQuotes(cli: string)
    requires cli == "jest" + " " + "src/*" + " " + "--project='loremIpsumDolorSilAmet'" + " " + "--foo" + " " + "\"bar\""
    ensures ParseCommand(cli) == Ok(CliCommand("jest", ["src/*"], map["project" := ["loremIpsumDolorSilAmet"], "foo" := ["bar"]]))
  {
    QuotesParts();
    QuotesParts2();
    QuotesParts3();
    QuotesParts4();
    Cases.QuotedValues(cli, "jest", "src/*", "--project='loremIpsumDolorSilAmet'", "project",
                       "loremIpsumDolorSilAmet", "--foo", "foo", "\"bar\"", "bar");
  }

  lemma QuotesParts()
    ensures Cases.Word("jest")
    ensures Cases.Positional("src/*")
    ensures Cases.Name("project")
  {
  }

  lemma QuotesParts2()
    ensures Cases.Word("loremIpsumDolorSilAmet")
    ensures Cases.Name("foo")
    ensures Cases.Positional("bar")
  {
  }

  lemma QuotesParts3()
    ensures "--project='loremIpsumDolorSilAmet'" == "--" + "project" + "=" + "'" + "loremIpsumDolorSilAmet" + "'"
  {
  }

  lemma QuotesParts4()
    ensures "--foo" == "--" + "foo"
    ensures "\"bar\"" == "\"" + "bar" + "\""
  {
  }

  // index.spec.ts:106-114: an escaped quote inside quotes is kept.

  lemma ExampleEscapedQuotes(cli: string)
    requires cli == "jest" + " " + "src/*" + " " + "--complex='escaped\\'quote'" + " " + "-m=\"escaped\\\"quote\""
    ensures ParseCommand(cli) == Ok(CliCommand("jest", ["src/*"], map["complex" := ["escaped'quote"], "m" := ["escaped\"quote"]]))
  {
    EscapedQuotesParts();
    EscapedQuotesParts2();
    EscapedQuotesParts3();
    EscapedQuotesParts4();
    EscapedQuotesParts5();
    EscapedQuotesParts6();
    Cases.EscapedQuotes(cli, "jest", "src/*", "--complex='escaped\\'quote'", "complex", "escaped", "quote",
                        "-m=\"escaped\\\"quote\"", 'm', "escaped", "quote");
  }

  lemma EscapedQuotesParts()
    ensures Cases.Word("jest")
    ensures Cases.Positional("src/*")
    ensures Cases.Name("complex")
    ensures Cases.Word("escaped")
  {
  }

  lemma EscapedQuotesParts2()
    ensures Cases.Word("quote")
    ensures Cases.Letter('m')
    ensures "complex" != "m"
  {
  }

  lemma EscapedQuotesParts3()
    ensures "--complex='escaped\\'quote'" == "--" + "complex" + "=" + "'" + "escaped" + "\\'" + "quote" + "'"
  {
  }

  lemma EscapedQuotesParts4()
    ensures "-m=\"escaped\\\"quote\"" == ['-', 'm', '='] + "\"" + "escaped" + "\\\"" + "quote" + "\""
  {
  }

  lemma EscapedQuotesParts5()
    ensures "escaped'quote" == "escaped" + "'" + "quote"
  {
  }

  lemma EscapedQuotesParts6()
    ensures "escaped\"quote" == "escaped" + "\"" + "quote"
  {
  }

  // index.spec.ts:116-120: an unclosed quote is an error carrying the partial value.

  lemma ExampleUnclosedQuote(cli: string)
    requires cli == "jest src/* -f 'as"
    ensures ParseCommand(cli) == Err(InvalidFlagError("as"))
  {
    UnclosedQuoteLine(cli);
    UnclosedQuoteParts();
    Cases.UnclosedQuote(cli, "jest", "src/*", "-f", 'f', "as");
  }

  lemma UnclosedQuoteLine(cli: string)
    requires cli == "jest src/* -f 'as"
    ensures cli == "jest" + " " + "src/*" + " " + "-f" + " " + "'" + "as"
  {
  }

  lemma UnclosedQuoteParts()
    ensures Cases.Word("jest")
    ensures Cases.Positional("src/*")
    ensures Cases.Letter('f')
    ensures Cases.Word("as")
    ensures "-f" == ['-', 'f']
  {
  }

  // index.spec.ts:122-130: only the first `=` separates name and value.

  lemma ExampleDoubleEquals(cli: string)
    requires cli == "jest src/* -f=foo=ss"
    ensures ParseCommand(cli) == Ok(CliCommand("jest", ["src/*"], map["f" := ["foo=ss"]]))
  {
    DoubleEqualsLine(cli);
    DoubleEqualsParts();
    DoubleEqualsParts2();
    Cases.ShortEquals(cli, "jest", "src/*", "-f=foo=ss", 'f', "foo=ss");
  }

  lemma DoubleEqualsLine(cli: string)
    requires cli == "jest src/* -f=foo=ss"
    ensures cli == "jest" + " " + "src/*" + " " + "-f=foo=ss"
  {
  }

  lemma DoubleEqualsParts()
    ensures Cases.Word("jest")
    ensures Cases.Positional("src/*")
    ensures Cases.Letter('f')
    ensures Cases.Visible("foo=ss")
  {
  }

  lemma DoubleEqualsParts2()
    ensures Tokenizer.Plain("foo=ss")
    ensures "-f=foo=ss" == ['-', 'f', '='] + "foo=ss"
  {
  }

  // index.spec.ts:132-140: a value token may contain `=`.

  lemma ExampleValueWithEquals(cli: string)
    requires cli == "jest src/* -f foo=ss"
    ensures ParseCommand(cli) == Ok(CliCommand("jest", ["src/*"], map["f" := ["foo=ss"]]))
  {
    ValueWithEqualsLine(cli);
    ValueWithEqualsParts();
    Cases.ShortThenValue(cli, "jest", "src/*", "-f", 'f', "foo=ss");
  }

  lemma ValueWithEqualsLine(cli: string)
    requires cli == "jest src/* -f foo=ss"
    ensures cli == "jest" + " " + "src/*" + " " + "-f" + " " + "foo=ss"
  {
  }

  lemma ValueWithEqualsParts()
    ensures Cases.Word("jest")
    ensures Cases.Positional("src/*")
    ensures Cases.Letter('f')
    ensures Cases.Positional("foo=ss")
    ensures "-f" == ['-', 'f']
  {
  }

  // index.spec.ts:142-150: an empty value after `=`.

  lemma ExampleEmptyValue(cli: string)
    requires cli == "jest src/* --foo="
    ensures ParseCommand(cli) == Ok(CliCommand("jest", ["src/*"], map["foo" := [""]]))
  {
    EmptyValueLine(cli);
    EmptyValueParts();
    EmptyValueParts2();
    Cases.LongEquals(cli, "jest", "src/*", "--foo=", "foo", "");
  }

  lemma EmptyValueLine(cli: string)
    requires cli == "jest src/* --foo="
    ensures cli == "jest" + " " + "src/*" + " " + "--foo="
  {
  }

  lemma EmptyValueParts()
    ensures Cases.Word("jest")
    ensures Cases.Positional("src/*")
    ensures Cases.Name("foo")
    ensures Cases.Visible("")
    ensures Tokenizer.Plain("")
  {
  }

  lemma EmptyValueParts2()
    ensures "--foo=" == "--" + "foo" + "=" + ""
  {
  }

  // index.spec.ts:152-156: a positional token after a flag with `=` is an error.

  lemma ExamplePositionalAfterFlag(cli: string)
    requires cli == "jest src/* --foo=bar dist/*"
    ensures ParseCommand(cli) == Err(InvalidFlagError("dist/*"))
  {
    PositionalAfterFlagLine(cli);
    PositionalAfterFlagParts();
    PositionalAfterFlagParts2();
    Cases.PositionalAfterValueFlag(cli, "jest", "src/*", "--foo=bar", "foo", "bar", "dist/*");
  }

  lemma PositionalAfterFlagLine(cli: string)
    requires cli == "jest src/* --foo=bar dist/*"
    ensures cli == "jest" + " " + "src/*" + " " + "--foo=bar" + " " + "dist/*"
  {
  }

  lemma PositionalAfterFlagParts()
    ensures Cases.Word("jest")
    ensures Cases.Positional("src/*")
    ensures Cases.Name("foo")
    ensures Cases.Visible("bar")
    ensures Tokenizer.Plain("bar")
  {
  }

  lemma PositionalAfterFlagParts2()
    ensures Cases.Positional("dist/*")
    ensures "--foo=bar" == "--" + "foo" + "=" + "bar"
  {
  }

  // Not in index.spec.ts: the split at index.ts:111 cuts a quoted value at a
  // whitespace run, and the join at index.ts:125 puts back one space.

  lemma ExampleQuotedBlanks(cli: string)
    requires cli == "jest --name='a  b'"
    ensures ParseCommand(cli) == Ok(CliCommand("jest", [], map["name" := ["a b"]]))
  {
    QuotedBlanksLine(cli);
    QuotedBlanksParts();
    QuotedBlanksParts2();
    Cases.QuotedBlanks(cli, "jest", "--name='a", "name", "a", "  ", "b'", "b");
  }

  lemma QuotedBlanksLine(cli: string)
    requires cli == "jest --name='a  b'"
    ensures cli == "jest" + " " + "--name='a" + "  " + "b'"
  {
  }

  lemma QuotedBlanksParts()
    ensures Cases.Word("jest")
    ensures Cases.Name("name")
    ensures Cases.Word("a")
    ensures Cases.Word("b")
    ensures Cases.Blanks("  ")
  {
  }

  lemma QuotedBlanksParts2()
    ensures "--name='a" == "--" + "name" + "=" + "'" + "a"
    ensures "b'" == "b" + "'"
    ensures "a b" == "a" + " " + "b"
  {
  }

  // Not in index.spec.ts: nothing is trimmed, so a leading blank makes the
  // command empty.

  lemma ExampleLeadingBlank(cli: string)
    requires cli == " jest"
    ensures ParseCommand(cli) == Ok(CliCommand("", ["jest"], map[]))
  {
    LeadingBlankLine(cli);
    LeadingBlankParts();
    Cases.LeadingBlank(cli, "jest");
  }

  lemma LeadingBlankLine(cli: string)
    requires cli == " jest"
    ensures cli == " " + "jest"
  {
  }

  lemma LeadingBlankParts()
    ensures Cases.Positional("jest")
  {
  }
}
