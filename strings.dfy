/** String helpers that stand for the JavaScript built-ins index.ts relies on. */
module Strings {

  /** `tokens.join(' ')`. */
  function JoinSpace(ts: seq<string>): string
  {
    if ts == [] then ""
    else if |ts| == 1 then ts[0]
    else ts[0] + " " + JoinSpace(ts[1..])
  }

  lemma JoinSpaceCons(ts: seq<string>)
    requires |ts| >= 2
    ensures JoinSpace(ts) == ts[0] + (" " + JoinSpace(ts[1..]))
  {
  }

  /** Joining a longer list adds one space and the last token. */
  lemma {:induction false} JoinSnoc(ts: seq<string>, t: string)
    requires ts != []
    ensures JoinSpace(ts + [t]) == JoinSpace(ts) + " " + t
    decreases |ts|
  {
    if |ts| > 1 {
      assert (ts + [t])[1..] == ts[1..] + [t];
      JoinSnoc(ts[1..], t);
    }
  }

  /** `s.startsWith('-')`. */
  predicate StartsWithDash(s: string)
  {
    |s| > 0 && s[0] == '-'
  }

  /** The characters a JavaScript regular-expression `.` does not match
      (no `s` flag is used in index.ts). */
  predicate IsLineTerminator(c: char)
  {
    c == '\n' || c == '\r' || c == '\U{2028}' || c == '\U{2029}'
  }

  /** True when every character of `s` is matched by a regular-expression `.`. */
  predicate NoLineTerminator(s: string)
  {
    forall i :: 0 <= i < |s| ==> !IsLineTerminator(s[i])
  }
}
