/** `parseCLIFlags` (index.ts:27-101): tokenize the flag region, then build the
    map from flag names to their values.

    Step B follows the behaviour index.spec.ts asserts: a fragment that is not
    a flag is appended to the most recently opened value-less flag (the
    cursor). index.ts as written is the case where the cursor is always empty,
    so such a fragment is always rejected; `AssembleAsWritten` models that. */
module Flags {
  import opened Results
  import opened Strings
  import opened Tokenizer
  import opened Classifier

  /** The `Record<string, string[]>` result; key order is not modelled. */
  type FlagMap = map<string, seq<string>>

  predicate NonEmptyKeys(flags: FlagMap)
  {
    forall k :: k in flags ==> k != ""
  }

  /** The values recorded for `k`, the empty list when `k` is absent. */
  function Values(flags: FlagMap, k: string): seq<string>
  {
    if k in flags then flags[k] else []
  }

  /** `result[key] ??= []; result[key].push(value)` (index.ts:79-83). */
  function Append(flags: FlagMap, k: string, v: string): (r: FlagMap)
    ensures r.Keys == flags.Keys + {k} && r[k] == Values(flags, k) + [v]
    ensures forall j :: j in flags && j != k ==> r[j] == flags[j]
  {
    flags[k := Values(flags, k) + [v]]
  }

  /** `if (!result[key]) result[key] = []` (index.ts:91-93). */
  function Declare(flags: FlagMap, k: string): (r: FlagMap)
    ensures r.Keys == flags.Keys + {k} && r[k] == Values(flags, k)
    ensures forall j :: j in flags ==> r[j] == flags[j]
  {
    if k in flags then flags else flags[k := []]
  }

  /** What one fragment does to the map and the cursor, or `None` when it is
      rejected: a `=` fragment appends its value and closes the cursor, a
      standalone flag is declared and becomes the cursor, and any other
      fragment is appended to the cursor's flag. Only a non-flag fragment with
      no open flag is rejected; keys are never removed, existing values are
      only extended, and keys and the cursor stay non-empty. */
  function Step(flags: FlagMap, cursor: Option<string>, frag: string): (r: Option<(FlagMap, Option<string>)>)
    ensures r.None? <==> Classify(frag).Unmatched? && cursor.None?
    ensures r.Some? ==> flags.Keys <= r.value.0.Keys && forall k :: k in flags ==> flags[k] <= r.value.0[k]
    ensures r.Some? && NonEmptyKeys(flags) && (cursor.Some? ==> cursor.value != "") ==>
      NonEmptyKeys(r.value.0) && (r.value.1.Some? ==> r.value.1.value != "")
  {
    match Classify(frag)
    case WithValue(k, v) => Some((Append(flags, k, v), None))
    case Standalone(k) => Some((Declare(flags, k), Some(k)))
    case Unmatched =>
      if cursor.None? then None
      else Some((Append(flags, cursor.value, frag), cursor))
  }

  /** Step B: the fragments applied in order from the given map and cursor.
      Keys are never removed, existing values are never changed (only
      extended), keys stay non-empty, and an error names a fragment of the
      input that is not a flag. */
  function Assemble(frags: seq<string>, flags: FlagMap, cursor: Option<string>): (r: Result<FlagMap>)
    ensures r.Ok? ==> flags.Keys <= r.value.Keys
    ensures r.Ok? ==> forall k :: k in flags ==> flags[k] <= r.value[k]
    ensures r.Ok? && NonEmptyKeys(flags) && (cursor.Some? ==> cursor.value != "") ==> NonEmptyKeys(r.value)
    ensures r.Err? ==> r.error.flag in frags && Classify(r.error.flag).Unmatched?
    decreases |frags|
  {
    if frags == [] then Ok(flags)
    else
      match Step(flags, cursor, frags[0])
      case None => Err(InvalidFlagError(frags[0]))
      case Some((flags', cursor')) => Assemble(frags[1..], flags', cursor')
  }

  /** The whole of `parseCLIFlags`: an unclosed quote or a stray value is an
      error; otherwise every key of the map is non-empty. */
  function ParseFlags(flag: string): (r: Result<FlagMap>)
    ensures r.Ok? ==> NonEmptyKeys(r.value)
  {
    match Tokenize(flag)
    case Err(e) => Err(e)
    case Ok(frags) => Assemble(frags, map[], None)
  }

  /** index.ts:27-101: the character loop with its quote state, then the loop
      over the fragments that fills the map. */
  method ParseCliFlags(flag: string) returns (r: Result<FlagMap>)
    ensures r == ParseFlags(flag)
  {
    var scanned := ScanFragments(flag);
    match scanned {
      case Err(e) => r := Err(e);
      case Ok(args) => r := CollectFlags(args);
    }
  }

  /** index.ts:28-66: the character loop; fails on an unclosed quote. */
  method ScanFragments(flag: string) returns (r: Result<seq<string>>)
    ensures r == Tokenize(flag)
  {
    var args: seq<string> := [];
    var curr := "";
    var isInQuotes := false;
    var quoteChar := '"';  // only read while isInQuotes holds
    var idx := 0;
    while idx < |flag|
      invariant 0 <= idx <= |flag|
      invariant ScanFrom(flag, Start)
             == ScanFrom(flag[idx..], ScanState(args, curr, if isInQuotes then Some(quoteChar) else None))
    {
      var ch := flag[idx];
      ghost var rest := flag[idx..];
      assert rest[0] == ch && rest[1..] == flag[idx + 1..];
      if ch == '\\' && idx + 1 < |flag| {
        assert rest[1] == flag[idx + 1] && rest[2..] == flag[idx + 2..];
        curr := curr + [flag[idx + 1]];
        idx := idx + 1;
      } else if isInQuotes {
        if ch == quoteChar {
          isInQuotes := false;
        } else {
          curr := curr + [ch];
        }
      } else {
        if ch == '"' || ch == '\'' {
          isInQuotes := true;
          quoteChar := ch;
        } else if ch == ' ' {
          if |curr| > 0 {
            args := args + [curr];
            curr := "";
          }
        } else {
          curr := curr + [ch];
        }
      }
      idx := idx + 1;
    }

    if isInQuotes {
      return Err(InvalidFlagError(curr));
    }
    if |curr| > 0 {
      args := args + [curr];
    }
    return Ok(args);
  }

  /** index.ts:68-100: the loop over the fragments that fills the map. */
  method CollectFlags(args: seq<string>) returns (r: Result<FlagMap>)
    ensures r == Assemble(args, map[], None)
  {
    var result: FlagMap := map[];
    var cursor: Option<string> := None;
    var i := 0;
    while i < |args|
      invariant 0 <= i <= |args|
      invariant Assemble(args, map[], None) == Assemble(args[i..], result, cursor)
    {
      assert args[i..][0] == args[i] && args[i..][1..] == args[i + 1..];
      var next := RecordFragment(result, cursor, args[i]);
      if next.None? {
        return Err(InvalidFlagError(args[i]));
      }
      result, cursor := next.value.0, next.value.1;
      i := i + 1;
    }
    return Ok(result);
  }

  /** The `forEach` callback of index.ts:70-98, applied to one fragment. */
  method RecordFragment(result: FlagMap, cursor: Option<string>, arg: string)
    returns (r: Option<(FlagMap, Option<string>)>)
    ensures r == Step(result, cursor, arg)
  {
    var updated := result;
    match Classify(arg) {
      case WithValue(key, value) =>
        if key !in updated {
          updated := updated[key := []];
        }
        updated := updated[key := updated[key] + [value]];
        assert updated == Append(result, key, value);
        return Some((updated, None));
      case Standalone(key) =>
        if key !in updated {
          updated := updated[key := []];
        }
        return Some((updated, Some(key)));
      case Unmatched =>
        if cursor.None? {
          return None;
        }
        if cursor.value !in updated {
          updated := updated[cursor.value := []];
        }
        updated := updated[cursor.value := updated[cursor.value] + [arg]];
        assert updated == Append(result, cursor.value, arg);
        return Some((updated, cursor));
    }
  }

  /** No fragment of `vs` is a flag: each one is a value. */
  predicate NoFlags(vs: seq<string>)
    decreases |vs|
  {
    vs == [] || (Classify(vs[0]).Unmatched? && NoFlags(vs[1..]))
  }

  /** Every fragment of `frags` is a flag. */
  predicate AllFlags(frags: seq<string>)
    decreases |frags|
  {
    frags == [] || (!Classify(frags[0]).Unmatched? && AllFlags(frags[1..]))
  }

  /** A standalone flag creates its key with no values if it is absent, leaves
      existing values alone, and collects the non-flag fragments that follow
      it, in order. */
  lemma OpenFlagCollectsValues(f: string, k: string, vs: seq<string>, flags: FlagMap, cursor: Option<string>)
    requires Classify(f) == Standalone(k)
    requires NoFlags(vs)
    ensures Assemble([f] + vs, flags, cursor) == Ok(flags[k := Values(flags, k) + vs])
  {
    OpenFlagGroup(f, k, vs, [], flags, cursor);
    assert [f] + vs + [] == [f] + vs;
  }

  /** The fragments are consumed flag by flag: a standalone flag and the
      non-flag fragments after it add those values to its key, and the scan
      goes on with that flag still open. */
  lemma OpenFlagGroup(f: string, k: string, vs: seq<string>, rest: seq<string>,
                      flags: FlagMap, cursor: Option<string>)
    requires Classify(f) == Standalone(k)
    requires NoFlags(vs)
    ensures Assemble([f] + vs + rest, flags, cursor) == Assemble(rest, flags[k := Values(flags, k) + vs], Some(k))
  {
    assert [f] + vs + rest == [f] + (vs + rest);
    AssembleCons(f, vs + rest, flags, cursor);
    CursorGroup(vs, rest, k, Declare(flags, k));
    DeclareThenExtend(flags, k, vs);
  }

  /** Applying the first fragment of a list. */
  lemma AssembleCons(f: string, rest: seq<string>, flags: FlagMap, cursor: Option<string>)
    requires Step(flags, cursor, f).Some?
    ensures Assemble([f] + rest, flags, cursor)
         == Assemble(rest, Step(flags, cursor, f).value.0, Step(flags, cursor, f).value.1)
  {
    assert ([f] + rest)[0] == f && ([f] + rest)[1..] == rest;
  }

  lemma DeclareThenExtend(flags: FlagMap, k: string, vs: seq<string>)
    ensures Declare(flags, k)[k := Declare(flags, k)[k] + vs] == flags[k := Values(flags, k) + vs]
  {
    assert Declare(flags, k)[k] == Values(flags, k);
  }

  lemma AppendThenExtend(flags: FlagMap, k: string, vs: seq<string>)
    requires k in flags && vs != []
    ensures Append(flags, k, vs[0])[k := Append(flags, k, vs[0])[k] + vs[1..]] == flags[k := flags[k] + vs]
  {
    assert flags[k] + [vs[0]] + vs[1..] == flags[k] + vs;
  }

  lemma ExtendByNothing(flags: FlagMap, k: string)
    requires k in flags
    ensures flags[k := flags[k] + []] == flags
  {
    assert flags[k] + [] == flags[k];
  }

  lemma {:induction false} CursorGroup(vs: seq<string>, rest: seq<string>, k: string, flags: FlagMap)
    requires k in flags
    requires NoFlags(vs)
    ensures Assemble(vs + rest, flags, Some(k)) == Assemble(rest, flags[k := flags[k] + vs], Some(k))
    decreases |vs|
  {
    if vs == [] {
      assert vs + rest == rest;
      ExtendByNothing(flags, k);
    } else {
      var next := Append(flags, k, vs[0]);
      assert k in next && NoFlags(vs[1..]);
      CursorStep(vs, rest, k, flags);
      CursorGroup(vs[1..], rest, k, next);
      AppendThenExtend(flags, k, vs);
    }
  }

  /** With a flag open, a fragment that is not a flag is appended to it. */
  lemma CursorStep(vs: seq<string>, rest: seq<string>, k: string, flags: FlagMap)
    requires vs != [] && Classify(vs[0]).Unmatched?
    ensures Assemble(vs + rest, flags, Some(k)) == Assemble(vs[1..] + rest, Append(flags, k, vs[0]), Some(k))
  {
    assert vs + rest == [vs[0]] + (vs[1..] + rest);
    AssembleCons(vs[0], vs[1..] + rest, flags, Some(k));
  }

  /** A `--name=value` or `-c=value` fragment appends its value and closes any
      open flag. */
  lemma ValueFlagStep(f: string, k: string, v: string, rest: seq<string>, flags: FlagMap, cursor: Option<string>)
    requires Classify(f) == WithValue(k, v)
    ensures Assemble([f] + rest, flags, cursor) == Assemble(rest, flags[k := Values(flags, k) + [v]], None)
  {
    AssembleCons(f, rest, flags, cursor);
  }

  /** After `--name=value` no flag is open, so a following non-flag fragment
      is rejected. */
  lemma ValueFragmentClosesCursor(f: string, k: string, v: string, b: string, rest: seq<string>,
                                  flags: FlagMap, cursor: Option<string>)
    requires Classify(f) == WithValue(k, v) && Classify(b).Unmatched?
    ensures Assemble([f, b] + rest, flags, cursor) == Err(InvalidFlagError(b))
  {
    var frags := [f, b] + rest;
    assert frags[0] == f && frags[1..] == [b] + rest;
    assert frags[1..][0] == b;
  }

  /** The map built from `(name, value)` pairs in order. */
  function AddAll(flags: FlagMap, ps: seq<(string, string)>): FlagMap
    decreases |ps|
  {
    if ps == [] then flags else AddAll(Append(flags, ps[0].0, ps[0].1), ps[1..])
  }

  /** `--name=value` spelled out for each pair. */
  function LongValueFragments(ps: seq<(string, string)>): (r: seq<string>)
    ensures |r| == |ps|
    ensures forall i :: 0 <= i < |ps| ==> r[i] == "--" + ps[i].0 + "=" + ps[i].1
  {
    if ps == [] then [] else ["--" + ps[0].0 + "=" + ps[0].1] + LongValueFragments(ps[1..])
  }

  /** One name paired with each value in turn. */
  function SameKey(k: string, vs: seq<string>): (ps: seq<(string, string)>)
    ensures |ps| == |vs| && forall i :: 0 <= i < |vs| ==> ps[i] == (k, vs[i])
  {
    seq(|vs|, i requires 0 <= i < |vs| => (k, vs[i]))
  }

  /** Values given under one name accumulate in input order, after any values
      the name already had. */
  lemma {:induction false} SameKeyAccumulates(flags: FlagMap, k: string, vs: seq<string>)
    requires vs != []
    ensures AddAll(flags, SameKey(k, vs)) == flags[k := Values(flags, k) + vs]
    decreases |vs|
  {
    var ps := SameKey(k, vs);
    var flags' := Append(flags, k, vs[0]);
    assert AddAll(flags, ps) == AddAll(flags', ps[1..]);
    if |vs| == 1 {
      assert ps[1..] == [];
      assert [vs[0]] == vs;
    } else {
      assert ps[1..] == SameKey(k, vs[1..]);
      SameKeyAccumulates(flags', k, vs[1..]);
      AppendThenAdd(flags, k, vs);
    }
  }

  lemma AppendThenAdd(flags: FlagMap, k: string, vs: seq<string>)
    requires vs != []
    ensures var flags' := Append(flags, k, vs[0]);
      flags'[k := Values(flags', k) + vs[1..]] == flags[k := Values(flags, k) + vs]
  {
    assert Values(flags, k) + [vs[0]] + vs[1..] == Values(flags, k) + vs;
  }

  predicate RenderablePairs(ps: seq<(string, string)>)
  {
    forall i :: 0 <= i < |ps| ==> ps[i].0 != "" && '=' !in ps[i].0 && NoLineTerminator(ps[i].1)
  }

  lemma {:induction false} AssembleLongValues(ps: seq<(string, string)>, flags: FlagMap, cursor: Option<string>)
    requires RenderablePairs(ps)
    ensures Assemble(LongValueFragments(ps), flags, cursor) == Ok(AddAll(flags, ps))
    decreases |ps|
  {
    if ps != [] {
      var frags := LongValueFragments(ps);
      ClassifyLongValue(ps[0].0, ps[0].1);
      assert frags[1..] == LongValueFragments(ps[1..]);
      AssembleLongValues(ps[1..], Append(flags, ps[0].0, ps[0].1), None);
    }
  }

  /** Round trip of the whole flag parser: rendering pairs as `--name=value`
      with every character escaped, separated by single spaces, parses back to
      the map that accumulates the values per name in order. */
  lemma ParseFlagsRoundTrip(ps: seq<(string, string)>)
    requires RenderablePairs(ps)
    ensures ParseFlags(JoinSpace(EscapeAll(LongValueFragments(ps)))) == Ok(AddAll(map[], ps))
  {
    var frags := LongValueFragments(ps);
    assert NonEmptyAll(frags) by {
      forall i | 0 <= i < |frags| ensures frags[i] != "" {
        assert |frags[i]| >= 3;
      }
    }
    TokenizeEscapedRoundTrip(frags);
    AssembleLongValues(ps, map[], None);
  }

  /** index.ts:70-98 as written: no cursor, so every fragment that matches none
      of the four patterns throws. */
  function AssembleAsWritten(frags: seq<string>, flags: FlagMap): (r: Result<FlagMap>)
    ensures r.Ok? <==> AllFlags(frags)
    ensures r.Ok? ==> flags.Keys <= r.value.Keys
    ensures r.Err? ==> r.error.flag in frags && Classify(r.error.flag).Unmatched?
    decreases |frags|
  {
    if frags == [] then Ok(flags)
    else
      match Classify(frags[0])
      case WithValue(k, v) => AssembleAsWritten(frags[1..], Append(flags, k, v))
      case Standalone(k) => AssembleAsWritten(frags[1..], Declare(flags, k))
      case Unmatched => Err(InvalidFlagError(frags[0]))
  }

  /** Where every fragment is a flag, the code as written and the cursor
      version agree: the cursor only matters for non-flag fragments. */
  lemma {:induction false} AsWrittenAgreesWithoutStrayValues(frags: seq<string>, flags: FlagMap, cursor: Option<string>)
    requires AllFlags(frags)
    ensures AssembleAsWritten(frags, flags) == Assemble(frags, flags, cursor)
    decreases |frags|
  {
    if frags != [] {
      match Classify(frags[0])
      case WithValue(k, v) =>
        AsWrittenAgreesWithoutStrayValues(frags[1..], Append(flags, k, v), None);
      case Standalone(k) =>
        AsWrittenAgreesWithoutStrayValues(frags[1..], Declare(flags, k), Some(k));
    }
  }

  /** The discrepancy: as written, a value after a standalone flag is rejected,
      while the cursor version records it under that flag. */
  lemma AsWrittenRejectsFlagValue(f: string, k: string, b: string, flags: FlagMap)
    requires Classify(f) == Standalone(k) && Classify(b).Unmatched?
    ensures AssembleAsWritten([f, b], flags) == Err(InvalidFlagError(b))
    ensures Assemble([f, b], flags, None) == Ok(flags[k := Values(flags, k) + [b]])
  {
    var frags := [f, b];
    assert frags[1..] == [b];
    OpenFlagCollectsValues(f, k, [b], flags, None);
    assert [f] + [b] == frags;
  }
}
