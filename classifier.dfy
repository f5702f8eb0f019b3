/** The fragment classification of `parseCLIFlags` (index.ts:70-97): the four
    regular expressions, tried in the source's order, written as explicit
    checks on the dash prefix and the first `=`. */
module Classifier {
  import opened Results
  import opened Strings

  /** What a fragment is: `--name=value` / `-c=value`, a standalone `--name` /
      `-name`, or a fragment that none of the four patterns matches. */
  datatype Fragment = WithValue(key: string, value: string) | Standalone(key: string) | Unmatched

  /** The index of the first `=` in `s`, or `|s|` when there is none. */
  function IndexOfEq(s: string): (k: nat)
    ensures k <= |s|
    ensures forall i :: 0 <= i < k ==> s[i] != '='
    ensures k < |s| ==> s[k] == '='
  {
    if s == [] || s[0] == '=' then 0 else 1 + IndexOfEq(s[1..])
  }

  /** `^--([^=]+)=(.*)$` (index.ts:71): a non-empty name without `=`, then the
      first `=`, then a value free of line terminators. */
  function MatchLongValue(arg: string): (r: Option<(string, string)>)
    ensures r.Some? ==> arg == "--" + r.value.0 + "=" + r.value.1
    ensures r.Some? ==> r.value.0 != "" && '=' !in r.value.0 && NoLineTerminator(r.value.1)
  {
    if |arg| < 2 || arg[0] != '-' || arg[1] != '-' then None
    else
      var rest := arg[2..];
      var k := IndexOfEq(rest);
      if 1 <= k < |rest| && NoLineTerminator(rest[k + 1..]) then
        assert rest == rest[..k] + "=" + rest[k + 1..];
        Some((rest[..k], rest[k + 1..]))
      else None
  }

  /** `^-([^=])=(.*)$` (index.ts:73): exactly one character other than `=`
      before the `=`. */
  function MatchShortValue(arg: string): (r: Option<(string, string)>)
    ensures r.Some? ==> arg == "-" + r.value.0 + "=" + r.value.1
    ensures r.Some? ==> |r.value.0| == 1 && r.value.0[0] != '=' && NoLineTerminator(r.value.1)
  {
    if |arg| >= 3 && arg[0] == '-' && arg[1] != '=' && arg[2] == '=' && NoLineTerminator(arg[3..]) then
      assert arg == "-" + arg[1..2] + "=" + arg[3..];
      Some((arg[1..2], arg[3..]))
    else None
  }

  /** `^--(.+)$` (index.ts:85). */
  function MatchLongStandalone(arg: string): (r: Option<string>)
    ensures r.Some? ==> arg == "--" + r.value && r.value != "" && NoLineTerminator(r.value)
  {
    if |arg| >= 3 && arg[0] == '-' && arg[1] == '-' && NoLineTerminator(arg[2..]) then
      assert arg == "--" + arg[2..];
      Some(arg[2..])
    else None
  }

  /** `^-(.+)$` (index.ts:87). */
  function MatchShortStandalone(arg: string): (r: Option<string>)
    ensures r.Some? ==> arg == "-" + r.value && r.value != "" && NoLineTerminator(r.value)
  {
    if |arg| >= 2 && arg[0] == '-' && NoLineTerminator(arg[1..]) then
      assert arg == "-" + arg[1..];
      Some(arg[1..])
    else None
  }

  /** Classifies one fragment, trying the patterns in the order of
      index.ts:71-88. The key and value are the pieces the fragment is made
      of; every key is non-empty; a fragment without a leading dash is never
      a flag, and a dash followed by text free of line terminators always is. */
  function Classify(arg: string): (r: Fragment)
    ensures r.WithValue? ==> r.key != "" && '=' !in r.key && NoLineTerminator(r.value)
    ensures r.WithValue? ==>
      arg == "--" + r.key + "=" + r.value || (|r.key| == 1 && arg == "-" + r.key + "=" + r.value)
    ensures r.Standalone? ==> r.key != "" && NoLineTerminator(r.key)
    ensures r.Standalone? ==> arg == "--" + r.key || arg == "-" + r.key
    ensures !StartsWithDash(arg) ==> r.Unmatched?
    ensures StartsWithDash(arg) && |arg| >= 2 && NoLineTerminator(arg[1..]) ==> !r.Unmatched?
  {
    match MatchLongValue(arg)
    case Some((k, v)) => WithValue(k, v)
    case None =>
      match MatchShortValue(arg)
      case Some((k, v)) => WithValue(k, v)
      case None =>
        match MatchLongStandalone(arg)
        case Some(k) => Standalone(k)
        case None =>
          match MatchShortStandalone(arg)
          case Some(k) => Standalone(k)
          case None => Unmatched
  }

  lemma IndexOfEqAfterName(k: string, rest: string)
    requires '=' !in k
    ensures IndexOfEq(k + "=" + rest) == |k|
  {
    var s := k + "=" + rest;
    assert s[|k|] == '=';
    assert forall i :: 0 <= i < |k| ==> s[i] == k[i];
  }

  /** `--name=value` splits at the first `=`: the value keeps any further `=`
      and may be empty. */
  lemma ClassifyLongValue(k: string, v: string)
    requires k != "" && '=' !in k && NoLineTerminator(v)
    ensures Classify("--" + k + "=" + v) == WithValue(k, v)
  {
    var arg := "--" + k + "=" + v;
    assert arg[2..] == k + "=" + v;
    IndexOfEqAfterName(k, v);
    assert (k + "=" + v)[..|k|] == k && (k + "=" + v)[|k| + 1..] == v;
  }

  /** `-c=value` with one character `c` other than `=`. */
  lemma ClassifyShortValue(c: char, v: string)
    requires c != '=' && NoLineTerminator(v)
    ensures Classify(['-', c, '='] + v) == WithValue([c], v)
  {
    var arg := ['-', c, '='] + v;
    if c == '-' {
      assert arg[2..] == "=" + v;
      assert IndexOfEq(arg[2..]) == 0;
    }
    assert arg[1..2] == [c] && arg[3..] == v;
  }

  /** A standalone `--name` names the flag `name`. */
  lemma ClassifyLongStandalone(k: string)
    requires k != "" && '=' !in k && NoLineTerminator(k)
    ensures Classify("--" + k) == Standalone(k)
  {
    var arg := "--" + k;
    assert arg[2..] == k;
    assert IndexOfEq(k) == |k|;
    assert arg[2] == k[0];
  }

  /** A standalone `-name` names the flag `name`, whatever its length. */
  lemma ClassifyShortStandalone(k: string)
    requires k != "" && '=' !in k && NoLineTerminator(k) && k[0] != '-'
    ensures Classify("-" + k) == Standalone(k)
  {
    var arg := "-" + k;
    assert arg[1..] == k;
    if |k| >= 2 {
      assert arg[2] == k[1];
    }
  }

  /** A single dash with more than one character before the `=` matches none of
      the `=` patterns, so the whole rest, `=` included, becomes the key:
      `-ab=c` gives the key `ab=c`. */
  lemma ClassifySingleDashLongName(k: string, v: string)
    requires |k| >= 2 && k[0] != '-' && '=' !in k && NoLineTerminator(k) && NoLineTerminator(v)
    ensures Classify("-" + k + "=" + v) == Standalone(k + "=" + v)
  {
    var arg := "-" + k + "=" + v;
    assert arg[1..] == k + "=" + v;
    assert arg[2] == k[1];
    assert forall i :: 1 <= i < |arg| ==> arg[i] == (k + "=" + v)[i - 1];
  }
}
