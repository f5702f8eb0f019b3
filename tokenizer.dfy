/** Step A of `parseCLIFlags` (index.ts:27-66): the character scan that cuts the
    flag region into fragments, honouring quotes and backslash escapes. */
module Tokenizer {
  import opened Results
  import opened Strings

  predicate IsQuote(c: char)
  {
    c == '"' || c == '\''
  }

  /** The scan's local state: the fragments emitted so far (`args`), the
      fragment being built (`curr`) and, when inside quotes, the character
      that opened them (`isInQuotes`/`quoteChar`). */
  datatype ScanState = ScanState(fragments: seq<string>, curr: string, quote: Option<char>)

  const Start := ScanState([], "", None)

  predicate NonEmptyAll(fs: seq<string>)
  {
    forall i :: 0 <= i < |fs| ==> fs[i] != ""
  }

  /** Pushes the current fragment if it is non-empty (index.ts:50-53, 64-66). */
  function Flush(st: ScanState): ScanState
  {
    if st.curr == "" then st else ScanState(st.fragments + [st.curr], "", st.quote)
  }

  /** The scan of the remaining input `s` from state `st`, one character (or one
      escape pair) at a time, following the branches of index.ts:33-58.
      Fragments are only ever appended, and only non-empty ones. */
  function ScanFrom(s: string, st: ScanState): (r: ScanState)
    ensures |st.fragments| <= |r.fragments| && r.fragments[..|st.fragments|] == st.fragments
    ensures NonEmptyAll(st.fragments) ==> NonEmptyAll(r.fragments)
    decreases |s|
  {
    if s == [] then st
    else if s[0] == '\\' && |s| >= 2 then
      ScanFrom(s[2..], st.(curr := st.curr + [s[1]]))
    else if st.quote.Some? then
      if s[0] == st.quote.value then ScanFrom(s[1..], st.(quote := None))
      else ScanFrom(s[1..], st.(curr := st.curr + [s[0]]))
    else if IsQuote(s[0]) then ScanFrom(s[1..], st.(quote := Some(s[0])))
    else if s[0] == ' ' then ScanFrom(s[1..], Flush(st))
    else ScanFrom(s[1..], st.(curr := st.curr + [s[0]]))
  }

  /** The fragments of a flag region, or the unclosed-quote error carrying the
      partial fragment (index.ts:60-66). */
  function Tokenize(s: string): (r: Result<seq<string>>)
    ensures r.Ok? ==> NonEmptyAll(r.value)
  {
    var st := ScanFrom(s, Start);
    if st.quote.Some? then Err(InvalidFlagError(st.curr)) else Ok(Flush(st).fragments)
  }

  /** Writes every character of `v` behind a backslash. */
  function Escape(v: string): string
  {
    if v == [] then [] else ['\\', v[0]] + Escape(v[1..])
  }

  function EscapeAll(fs: seq<string>): seq<string>
  {
    if fs == [] then [] else [Escape(fs[0])] + EscapeAll(fs[1..])
  }

  /** A backslash followed by any character appends that character literally,
      whether or not the scan is inside quotes. */
  lemma {:induction false} ScanEscaped(v: string, rest: string, st: ScanState)
    ensures ScanFrom(Escape(v) + rest, st) == ScanFrom(rest, st.(curr := st.curr + v))
    decreases |v|
  {
    if v == [] {
      assert Escape(v) + rest == rest;
      assert st.(curr := st.curr + v) == st;
    } else {
      var st' := st.(curr := st.curr + [v[0]]);
      ScanEscapedStep(v, rest, st);
      ScanEscaped(v[1..], rest, st');
      assert st'.curr + v[1..] == st.curr + v;
    }
  }

  /** The first escape pair of `Escape(v)` appends its character. */
  lemma ScanEscapedStep(v: string, rest: string, st: ScanState)
    requires v != []
    ensures ScanFrom(Escape(v) + rest, st)
         == ScanFrom(Escape(v[1..]) + rest, st.(curr := st.curr + [v[0]]))
  {
    var s := Escape(v) + rest;
    assert s == ['\\', v[0]] + (Escape(v[1..]) + rest);
    assert s[0] == '\\' && |s| >= 2 && s[1] == v[0];
    assert s[2..] == Escape(v[1..]) + rest;
  }

  /** Inside quotes opened by `q`, text without `q` and without backslashes is
      appended literally, spaces and the other quote character included. */
  lemma {:induction false} ScanQuoted(v: string, rest: string, st: ScanState)
    requires st.quote.Some? && st.quote.value !in v && '\\' !in v
    ensures ScanFrom(v + rest, st) == ScanFrom(rest, st.(curr := st.curr + v))
    decreases |v|
  {
    if v == [] {
      assert v + rest == rest;
      assert st.(curr := st.curr + v) == st;
    } else {
      var s := v + rest;
      assert s[0] == v[0] && s[1..] == v[1..] + rest;
      var st' := st.(curr := st.curr + [v[0]]);
      ScanQuoted(v[1..], rest, st');
      assert st'.curr + v[1..] == st.curr + v;
    }
  }

  lemma {:induction false} ScanEscapedJoin(fs: seq<string>, done: seq<string>)
    requires |fs| >= 1 && NonEmptyAll(fs)
    ensures ScanFrom(JoinSpace(EscapeAll(fs)), ScanState(done, "", None))
         == ScanState(done + fs[..|fs| - 1], fs[|fs| - 1], None)
    decreases |fs|
  {
    var st := ScanState(done, "", None);
    if |fs| == 1 {
      assert EscapeAll(fs) == [Escape(fs[0])];
      assert Escape(fs[0]) + [] == Escape(fs[0]);
      ScanEscaped(fs[0], [], st);
      assert done + fs[..0] == done;
    } else {
      var tail := JoinSpace(EscapeAll(fs[1..]));
      assert EscapeAll(fs) == [Escape(fs[0])] + EscapeAll(fs[1..]);
      JoinSpaceCons(EscapeAll(fs));
      ScanEscaped(fs[0], " " + tail, st);
      assert st.(curr := st.curr + fs[0]) == ScanState(done, fs[0], None);
      SpaceFlushes(tail, done, fs[0]);
      ScanEscapedJoin(fs[1..], done + [fs[0]]);
      ShiftPrefix(fs, done);
    }
  }

  /** A scan that ends outside quotes holding the last of `fs` as the current
      fragment, after all the others, tokenizes to `fs`. */
  lemma FlushLast(fs: seq<string>, s: string)
    requires |fs| >= 1 && fs[|fs| - 1] != ""
    requires ScanFrom(s, ScanState([], "", None)) == ScanState([] + fs[..|fs| - 1], fs[|fs| - 1], None)
    ensures Tokenize(s) == Ok(fs)
  {
    assert [] + fs[..|fs| - 1] + [fs[|fs| - 1]] == fs;
  }

  /** Round trip: escaping every character of non-empty fragments and joining
      them with single spaces tokenizes back to exactly those fragments, in
      order. */
  lemma TokenizeEscapedRoundTrip(fs: seq<string>)
    requires NonEmptyAll(fs)
    ensures Tokenize(JoinSpace(EscapeAll(fs))) == Ok(fs)
  {
    if fs != [] {
      ScanEscapedJoin(fs, []);
      FlushLast(fs, JoinSpace(EscapeAll(fs)));
    }
  }

  /** Quotes are stripped and only the opening quote character closes them. */
  lemma TokenizeQuoted(q: char, v: string)
    requires IsQuote(q) && v != [] && q !in v && '\\' !in v
    ensures Tokenize([q] + v + [q]) == Ok([v])
  {
    var s := [q] + v + [q];
    assert s[0] == q && s[1..] == v + [q];
    var inside := ScanState([], "", Some(q));
    assert ScanFrom(s, Start) == ScanFrom(v + [q], inside);
    ScanQuoted(v, [q], inside);
    assert inside.(curr := inside.curr + v) == ScanState([], v, Some(q));
    assert [q][1..] == [];
    assert ScanFrom([q], ScanState([], v, Some(q))) == ScanState([], v, None);
    assert Flush(ScanState([], v, None)).fragments == [v];
  }

  /** Inside quotes, text without the quote character and without backslashes
      is kept to the end, and the quotes stay open. */
  lemma ScanQuotedToEnd(v: string, u: string, q: char)
    requires q !in v && '\\' !in v
    ensures ScanFrom(v, ScanState([], u, Some(q))) == ScanState([], u + v, Some(q))
  {
    var inside := ScanState([], u, Some(q));
    assert v + [] == v;
    ScanQuoted(v, [], inside);
  }

  /** A scan that ends inside quotes fails, carrying the partial fragment. */
  lemma TokenizeUnclosedQuote(u: string, q: char, v: string)
    requires IsQuote(q) && q !in v && '\\' !in v
    ensures Tokenize(Escape(u) + [q] + v) == Err(InvalidFlagError(u + v))
  {
    var t := [q] + v;
    assert Escape(u) + [q] + v == Escape(u) + t;
    ScanEscaped(u, t, Start);
    assert Start.(curr := Start.curr + u) == ScanState([], u, None);
    OpenQuote(q, v, ScanState([], u, None));
    ScanQuotedToEnd(v, u, q);
  }

  /** A backslash that is the last character has nothing to escape and is kept. */
  lemma TokenizeTrailingBackslash(u: string)
    ensures Tokenize(Escape(u) + ['\\']) == Ok([u + ['\\']])
  {
    ScanEscaped(u, ['\\'], Start);
    assert Start.(curr := Start.curr + u) == ScanState([], u, None);
    var b := ['\\'];
    assert b[1..] == [];
    assert ScanFrom(b, ScanState([], u, None)) == ScanState([], u + b, None);
    assert Flush(ScanState([], u + b, None)).fragments == [u + b];
  }

  /** Text that the scan copies unchanged outside quotes: no space, no quote
      character, no backslash. */
  predicate Plain(v: string)
  {
    forall i :: 0 <= i < |v| ==> v[i] != ' ' && !IsQuote(v[i]) && v[i] != '\\'
  }

  lemma {:induction false} ScanPlain(v: string, rest: string, st: ScanState)
    requires st.quote.None? && Plain(v)
    ensures ScanFrom(v + rest, st) == ScanFrom(rest, st.(curr := st.curr + v))
    decreases |v|
  {
    if v == [] {
      assert v + rest == rest;
      assert st.(curr := st.curr + v) == st;
    } else {
      var s := v + rest;
      assert s[0] == v[0] && s[1..] == v[1..] + rest;
      var st' := st.(curr := st.curr + [v[0]]);
      ScanPlain(v[1..], rest, st');
      assert st'.curr + v[1..] == st.curr + v;
    }
  }

  /** Outside quotes, a quote character opens quotes and is dropped. */
  lemma OpenQuote(q: char, rest: string, st: ScanState)
    requires st.quote.None? && IsQuote(q)
    ensures ScanFrom([q] + rest, st) == ScanFrom(rest, st.(quote := Some(q)))
  {
    var s := [q] + rest;
    assert s[0] == q && s[1..] == rest;
  }

  /** Inside quotes, the opening character closes them and is dropped. */
  lemma CloseQuote(q: char, rest: string, st: ScanState)
    requires st.quote == Some(q) && IsQuote(q)
    ensures ScanFrom([q] + rest, st) == ScanFrom(rest, st.(quote := None))
  {
    var s := [q] + rest;
    assert s[0] == q && s[1..] == rest;
  }

  /** Outside quotes, a space pushes the non-empty current fragment. */
  lemma SpaceFlushes(tail: string, done: seq<string>, cur: string)
    requires cur != ""
    ensures ScanFrom(" " + tail, ScanState(done, cur, None)) == ScanFrom(tail, ScanState(done + [cur], "", None))
  {
    var s := " " + tail;
    assert s[0] == ' ' && s[1..] == tail;
  }

  lemma ShiftPrefix(fs: seq<string>, done: seq<string>)
    requires |fs| >= 2
    ensures done + [fs[0]] + fs[1..][..|fs| - 2] == done + fs[..|fs| - 1]
  {
    assert [fs[0]] + fs[1..][..|fs| - 2] == fs[..|fs| - 1];
  }

  lemma {:induction false} ScanPlainJoin(fs: seq<string>, done: seq<string>)
    requires |fs| >= 1 && NonEmptyAll(fs)
    requires forall i :: 0 <= i < |fs| ==> Plain(fs[i])
    ensures ScanFrom(JoinSpace(fs), ScanState(done, "", None))
         == ScanState(done + fs[..|fs| - 1], fs[|fs| - 1], None)
    decreases |fs|
  {
    var st := ScanState(done, "", None);
    if |fs| == 1 {
      assert fs[0] + [] == fs[0];
      ScanPlain(fs[0], [], st);
      assert done + fs[..0] == done;
    } else {
      var tail := JoinSpace(fs[1..]);
      JoinSpaceCons(fs);
      ScanPlain(fs[0], " " + tail, st);
      assert st.(curr := st.curr + fs[0]) == ScanState(done, fs[0], None);
      SpaceFlushes(tail, done, fs[0]);
      ScanPlainJoin(fs[1..], done + [fs[0]]);
      ShiftPrefix(fs, done);
    }
  }

  /** Non-empty fragments free of spaces, quotes and backslashes, joined by
      single spaces, tokenize back to themselves. */
  lemma TokenizePlain(fs: seq<string>)
    requires NonEmptyAll(fs) && forall i :: 0 <= i < |fs| ==> Plain(fs[i])
    ensures Tokenize(JoinSpace(fs)) == Ok(fs)
  {
    if fs != [] {
      ScanPlainJoin(fs, []);
      FlushLast(fs, JoinSpace(fs));
    }
  }
}
