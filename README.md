# parsley: a verified model of the command-line parser

parsley turns one command line, given as a string, into a command, its
positional arguments and a map from flag names to lists of values. This
project models its core, `parseCLI` and `parseCLIFlags` in `index.ts`, and
proves what those functions promise.

The model follows the code's own two stages.

- **Splitting (`Cli`).** The line is cut at whitespace runs. The first piece
  is the command. The pieces up to the first one starting with `-` are the
  arguments. The rest are joined again with single spaces to form the flag
  region.
- **Flag parsing (`Tokenizer`, `Classifier`, `Flags`).** The flag region is
  scanned character by character into fragments, honouring single and double
  quotes and backslash escapes. An unclosed quote is an error. Each fragment
  is then classified as `--name=value`, `-c=value`, `--name` / `-name`, or
  none of these, and the map is built fragment by fragment.

Modules, in dependency order:

- `Results` (`results.dfy`): `Option`, `Result` and the error value
  `InvalidFlagError`, which carries the offending fragment.
- `Strings` (`strings.dfy`): `join(' ')`, `startsWith('-')` and the characters
  a regular-expression `.` excludes.
- `Tokenizer` (`tokenizer.dfy`): the character scan as the function
  `ScanFrom`, and the escape, quote and round-trip lemmas.
- `Classifier` (`classifier.dfy`): the four regular expressions of
  index.ts:71-88, written as explicit checks, in the order the code tries
  them.
- `Flags` (`flags.dfy`): the map building (`Step`, `Assemble`) and the
  whole flag parser (`ParseFlags`). Also `ParseCliFlags`, the imperative
  method with the code's two loops, proved equal to `ParseFlags`.
- `Cli` (`cli.dfy`): the whitespace split (`Split`) and the command parser
  (`ParseCommand`). Also `ParseCli`, the imperative method with the code's
  argument loop, proved equal to `ParseCommand`.
- `Cases` (`cases.dfy`): the scenarios of index.spec.ts that involve flags
  (index.spec.ts:46-156), stated for all commands, arguments, names and
  values of the same shape as the test's strings. It also proves two
  consequences of the whitespace split. The four tests without flags
  (index.spec.ts:6-44) are instances of `Cli.NoDashTokenMeansNoFlags`, and
  `Examples` proves them on their own lines.
- `Examples` (`examples.dfy`): the test cases of index.spec.ts, on the
  test's own command lines.

Two places in index.ts do not do what index.spec.ts expects (see
"## Findings"). The model keeps both as written, and the rest of it
uses the corrected behaviour:

- **Stray values.** A fragment that is not a flag is attached to the most
  recently opened value-less flag. As written, index.ts always rejects such
  a fragment.
- **Argument loop.** The argument loop stops at the last token. As written,
  it reads past the last token.

index.ts does not trim the line before splitting it, and the model does
not either:

- a blank line gives the command `""` and one empty argument (`Cli.BlankInput`);
- a leading blank makes the command empty (`Cases.LeadingBlank`).

A first token starting with `-` is still taken as the command, because the
argument scan starts at the second token.

## Model

| member | source | states |
|---|---|---|
| Tokenizer.ScanFrom | index.ts:33-58 | The scan only ever appends fragments, and appends only non-empty ones. |
| Tokenizer.Tokenize | index.ts:60-66 | A successful scan yields only non-empty fragments. |
| Tokenizer.ScanEscaped | index.ts:36-38 | A backslash followed by any character appends that character, inside or outside quotes. |
| Tokenizer.ScanQuoted | index.ts:39-45 | Inside quotes, text without the closing quote and without backslashes is kept literally, spaces and the other quote character included. |
| Tokenizer.ScanPlain | index.ts:54-56 | Outside quotes, text without spaces, quotes or backslashes is appended to the current fragment. |
| Tokenizer.OpenQuote | index.ts:46-48 | Outside quotes, a quote character opens quotes and is dropped. |
| Tokenizer.CloseQuote | index.ts:40-41 | Inside quotes, only the opening character closes them, and it is dropped. |
| Tokenizer.SpaceFlushes | index.ts:49-53 | Outside quotes, a space pushes the non-empty current fragment and starts a new one. |
| Tokenizer.TokenizeEscapedRoundTrip | index.ts:33-66 | Non-empty fragments, every character escaped and joined by single spaces, scan back to exactly those fragments, in order. |
| Tokenizer.TokenizePlain | index.ts:33-66 | Non-empty fragments free of spaces, quotes and backslashes, joined by single spaces, scan back to themselves. |
| Tokenizer.TokenizeQuoted | index.ts:39-48 | A quoted value loses its quotes and becomes one fragment. |
| Tokenizer.TokenizeUnclosedQuote | index.ts:60-62 | A scan that ends inside quotes fails, and the error carries the partial fragment. |
| Tokenizer.TokenizeTrailingBackslash | index.ts:36-38 | A final backslash has nothing to escape and is kept as an ordinary character. |
| Classifier.MatchLongValue | index.ts:71 | A match splits `--name=value` at the first `=`; the name is non-empty and has no `=`; the value has no line terminator. |
| Classifier.MatchShortValue | index.ts:73 | A match is a dash, one character other than `=`, `=` and a value without line terminators. |
| Classifier.MatchLongStandalone | index.ts:85 | A match is `--` and a non-empty name without line terminators. |
| Classifier.MatchShortStandalone | index.ts:87 | A match is `-` and a non-empty name without line terminators. |
| Classifier.Classify | index.ts:70-97 | The key and value are the pieces of the fragment, and every key is non-empty. A fragment without a leading dash is never a flag. A dash followed by text without line terminators always is. |
| Classifier.ClassifyLongValue | index.ts:71 | `--name=value` gives that name and value; the value keeps any further `=` and may be empty. |
| Classifier.ClassifyShortValue | index.ts:73 | `-c=value` gives the one-letter name `c` and the value. |
| Classifier.ClassifyLongStandalone | index.ts:85 | `--name` declares `name`. |
| Classifier.ClassifyShortStandalone | index.ts:87 | `-name` declares `name`, whatever its length. |
| Classifier.ClassifySingleDashLongName | index.ts:71-88 | `-ab=c` matches neither `=` pattern, so the whole `ab=c` becomes a standalone key. |
| Flags.Append | index.ts:79-83 | Adds the key if it is absent, appends the value to its list, and leaves every other key unchanged. |
| Flags.Declare | index.ts:91-93 | Adds the key with no values if it is absent, and changes no existing list. |
| Flags.Step | index.ts:70-97 | A fragment is rejected exactly when it is not a flag and no flag is open. Keys are never removed, existing values are only extended, and keys and the open flag stay non-empty. |
| Flags.Assemble | index.ts:68-100 | A success keeps every key and extends every value list of the start map. An error names a fragment of the input that is not a flag. |
| Flags.ParseFlags | index.ts:27-101 | Every key of a parsed map is non-empty. |
| Flags.ParseCliFlags | index.ts:27-101 | The imperative parser returns exactly `ParseFlags` of its input. |
| Flags.ScanFragments | index.ts:28-66 | The character loop, with its quote flag and quote character, returns exactly `Tokenize` of its input. |
| Flags.CollectFlags | index.ts:68-100 | The loop over the fragments returns exactly `Assemble` from the empty map with no open flag. |
| Flags.RecordFragment | index.ts:70-98 | One pass of the loop body does exactly what `Step` does to the map and the open flag. |
| Flags.OpenFlagCollectsValues | index.ts:85-93 | A standalone flag creates its key if absent, keeps earlier values, and collects the non-flag fragments after it, in order. |
| Flags.OpenFlagGroup | index.ts:85-93 | A standalone flag and the values after it leave that flag open for what follows. |
| Flags.ValueFlagStep | index.ts:76-83 | `--name=value` or `-c=value` appends its value and closes any open flag. |
| Flags.ValueFragmentClosesCursor | index.ts:76-95 | A non-flag fragment right after `--name=value` is rejected, with that fragment in the error. |
| Flags.CursorGroup | index.ts:70-98 | With a flag open, non-flag fragments are appended to it, in order. |
| Flags.SameKeyAccumulates | index.ts:79-83 | Values under one name accumulate in input order after the values it already had. |
| Flags.AssembleLongValues | index.ts:70-98 | A list of `--name=value` fragments builds the map that accumulates each value under its name in order. |
| Flags.ParseFlagsRoundTrip | index.ts:27-101 | Rendering name and value pairs as escaped `--name=value` fragments joined by spaces parses back to the accumulated map. |
| Flags.AssembleAsWritten | index.ts:70-98 | The loop as written succeeds exactly when every fragment is a flag. A success keeps every key of the start map. An error names a fragment of the input that is not a flag. |
| Flags.AsWrittenAgreesWithoutStrayValues | index.ts:70-98 | Where every fragment is a flag, the loop as written and the corrected one build the same map. |
| Flags.AsWrittenRejectsFlagValue | index.ts:94-95 | As written, a value after a standalone flag is rejected; the corrected version records it under that flag. |
| Cli.TokenLength | index.ts:111 | The length of the first piece: no whitespace before it, and whitespace at it unless it is the end. |
| Cli.BlankLength | index.ts:111 | The length of the leading whitespace run: whitespace before it, and none at it unless it is the end. |
| Cli.IsWhitespace | index.ts:111 | The `\s` character set: every line terminator is in it, and no printable ASCII character other than the space is. |
| Strings.JoinSpace | index.ts:125 | `join(' ')`. It has no contract of its own. `Cli.SplitJoin` proves that the split undoes it, and `Strings.JoinSnoc` that one more token adds a space and that token. |
| Strings.JoinSnoc | index.ts:125 | Joining one more token appends a single space and then the token. |
| Cli.Split | index.ts:111 | There is always at least one piece. No piece holds whitespace, and only the first and the last may be empty. |
| Cli.SplitJoin | index.ts:111 | Whitespace-free tokens, non-empty except perhaps the first and last, joined by single spaces split back to themselves. |
| Cli.JoinSplit | index.ts:111-125 | Splitting and re-joining with single spaces collapses every whitespace run to one space and keeps every other character. |
| Cli.SplitCons | index.ts:111 | A token, a whitespace run and text not starting with whitespace split into that token followed by the split of the text. |
| Cli.ArgsEnd | index.ts:116-120 | The arguments run from the given index up to the first token starting with `-`, or to the end. |
| Cli.ParseCommand | index.ts:110-127 | On success, the command is the first piece of the split, no argument starts with `-`, and every flag name is non-empty. |
| Cli.ParseCli | index.ts:110-127 | The imperative parser returns exactly `ParseCommand` of its input. |
| Cli.ParsedCommandShape | index.ts:110-127 | On success, the command and the arguments are the first tokens, no argument starts with `-`, the next token (if any) does, and the flags are those of the remaining tokens joined by spaces. A failure is exactly the failure of that flag region. |
| Cli.NoDashTokenMeansNoFlags | index.ts:116-125 | With no token starting with `-` after the command, every later token is an argument and the flag map is empty. |
| Cli.BlankInput | index.ts:111-113 | A blank line is not trimmed: the command is empty and there is one empty argument. |
| Cli.ArgsEndAsWritten | index.ts:116-120 | The loop as written, with `None` for the crash. A result is the first token from the start index that begins with `-`. `None` means no such token exists. |
| Cli.AsWrittenCrashesWithoutFlag | index.ts:118 | The loop as written finds the same first flag token as the bounded loop, and crashes exactly when no token starts with `-`. |
| Cases.FlagThenValue | index.spec.ts:46-54 | A flag followed by a value collects that value. |
| Cases.RepeatedFlag | index.spec.ts:56-64 | A repeated flag collects its values in order. |
| Cases.LongEquals | index.spec.ts:66-74 | `--name=value` gives one value, possibly empty (also index.spec.ts:142-150). |
| Cases.MixedStyle | index.spec.ts:76-84 | `--name=a --name b` gives the list `[a, b]`. |
| Cases.ShortFlags | index.spec.ts:86-94 | One-letter flags: bare gives no values, followed by a value gives that value, and `-c=v` gives `v`. |
| Cases.QuotedValues | index.spec.ts:96-104 | Single and double quotes around values are dropped. |
| Cases.EscapedQuotes | index.spec.ts:106-114 | A backslash inside quotes keeps the quote character after it. |
| Cases.UnclosedQuote | index.spec.ts:116-120 | A quote never closed fails with the partial value. |
| Cases.ShortEquals | index.spec.ts:122-130 | Only the first `=` of `-c=v=w` separates the name from the value. |
| Cases.ShortThenValue | index.spec.ts:132-140 | A value after a short flag may contain `=`. |
| Cases.PositionalAfterValueFlag | index.spec.ts:152-156 | A positional token after `--name=value` fails with that token. |
| Cases.QuotedBlanks | index.ts:111-125 | Any non-empty whitespace run inside quotes, including tabs and line breaks, reaches the flag parser as a single space. |
| Cases.LeadingBlank | index.ts:111-120 | A leading blank leaves the command empty and makes the program name an argument. |
| Examples.ExampleEmpty | index.spec.ts:6-14 | The empty line gives an empty command, no arguments and no flags. |
| Examples.EmptyCrashesAsWritten | index.ts:116-120 | On the empty line the loop as written reads past the only token, while the model succeeds. |
| Examples.FlagValueRejectedAsWritten | index.ts:94-95 | As written, `--foo bar` is rejected at `bar`. |
| Examples.ExampleCommandOnly | index.spec.ts:16-24 | `jest` gives the command alone. |
| Examples.ExampleArgs | index.spec.ts:26-34 | `jest src/*` gives one argument. |
| Examples.ExampleManyArgs | index.spec.ts:36-44 | Three arguments, in order. |
| Examples.ExampleFlagValue | index.spec.ts:46-54 | The test's expected result for `--foo bar`. |
| Examples.ExampleRepeatedFlag | index.spec.ts:56-64 | The test's expected result for a flag repeated three times. |
| Examples.ExampleEqualsValue | index.spec.ts:66-74 | The test's expected result for `--foo=bar`. |
| Examples.ExampleMixedStyles | index.spec.ts:76-84 | The test's expected result for `--foo=bar --foo baz`. |
| Examples.ExampleShortFlags | index.spec.ts:86-94 | The test's expected result for `-f -c d -a=b`. |
| Examples.ExampleQuotes | index.spec.ts:96-104 | The test's expected result for the quoted values. |
| Examples.ExampleEscapedQuotes | index.spec.ts:106-114 | The test's expected result for the escaped quotes. |
| Examples.ExampleUnclosedQuote | index.spec.ts:116-120 | The test's line fails with `InvalidFlagError`. |
| Examples.ExampleDoubleEquals | index.spec.ts:122-130 | The test's expected result for `-f=foo=ss`. |
| Examples.ExampleValueWithEquals | index.spec.ts:132-140 | The test's expected result for `-f foo=ss`. |
| Examples.ExampleEmptyValue | index.spec.ts:142-150 | The test's expected result for `--foo=`. |
| Examples.ExamplePositionalAfterFlag | index.spec.ts:152-156 | The test's line fails with `InvalidFlagError` naming `dist/*`. |
| Examples.ExampleQuotedBlanks | index.ts:111-125 | `jest --name='a  b'` gives the value `a b`, with one space. |
| Examples.ExampleLeadingBlank | index.ts:111-120 | ` jest` gives the empty command and the argument `jest`. |

## Left out

- Regular expressions: the four patterns of index.ts:71-88 and the `\s+` of
  index.ts:111 are written as explicit character checks. No regular-expression
  engine is modelled. `\s` is the fixed set of ECMAScript white space and
  line terminator characters.
- Key order: the result is a Dafny `map`, so the insertion order of the
  keys of the JavaScript object is not modelled.
- Object prototype keys: names such as `constructor` or `__proto__`, which
  a plain JavaScript object treats specially, are ordinary keys here.
- Error text: `InvalidFlagError` carries the fragment. The message text
  `Invalid value for flag '...'` and the `Error` subclass are not modelled.
- Exceptions: a thrown `InvalidFlagError` is an `Err` result, and the crash
  of the loop as written (`ArgsEndAsWritten`) is `None`.
- Strings: JavaScript strings are sequences of UTF-16 code units. The model
  uses Dafny characters, and no surrogate pairs are modelled.

## Findings

| source | as written | input that shows it | evidently intended | confidence | as-written member | corrected member |
|---|---|---|---|---|---|---|
| index.ts:118 | `while (!tokens[idx].startsWith('-'))` has no bound, so when no token after the command starts with `-` it reads `tokens[tokens.length]`, which is `undefined`, and calling `startsWith` throws a `TypeError` | `""` (index.spec.ts:6-14 expects no exception); also `jest`, `jest src/*` | stop at the last token: every remaining token is an argument and there are no flags | not executed | Cli.AsWrittenCrashesWithoutFlag, Examples.EmptyCrashesAsWritten | Cli.ParseCli, Cli.NoDashTokenMeansNoFlags |
| index.ts:94-95 | a fragment that matches none of the four patterns always throws `InvalidFlagError`, even right after a flag without a value | `jest src/* --foo bar` (index.spec.ts:46-54 expects `foo: ['bar']`) | attach the fragment to the most recently opened flag without a value, and reject it only when no such flag is open | not executed | Flags.AsWrittenRejectsFlagValue, Examples.FlagValueRejectedAsWritten | Flags.Assemble, Flags.OpenFlagCollectsValues |
