/**
 * The java.lang.String operations used by the label readers and the tile-path
 * derivations, over `string` = `seq<char>`.
 */
module JavaStrings {
  import opened Wrappers
  import opened JavaNumerics

  predicate StartsWith(s: string, p: string) {
    |p| <= |s| && s[..|p|] == p
  }

  predicate EndsWith(s: string, p: string) {
    |p| <= |s| && s[|s| - |p|..] == p
  }

  predicate Contains(s: string, p: string)
    decreases |s|
  {
    StartsWith(s, p) || (|s| > 0 && Contains(s[1..], p))
  }

  /** String.indexOf: the first position at which `p` occurs in `s`. */
  function IndexOf(s: string, p: string): (r: Option<nat>)
    decreases |s|
    ensures r.Some? <==> Contains(s, p)
    ensures r.Some? ==> r.value + |p| <= |s| && s[r.value..r.value + |p|] == p
    ensures r.Some? ==> forall k :: 0 <= k < r.value ==> !StartsWith(s[k..], p)
  {
    if StartsWith(s, p) then Some(0)
    else if |s| == 0 then None
    else match IndexOf(s[1..], p)
      case None => None
      case Some(i) =>
        FirstMatchShifts(s, p, i);
        Some(i + 1)
  }

  /** A first match at i in the tail of s is a first match at i + 1 in s when s does not open with p. */
  lemma FirstMatchShifts(s: string, p: string, i: nat)
    requires |s| > 0 && !StartsWith(s, p)
    requires i + |p| <= |s[1..]| && s[1..][i..i + |p|] == p
    requires forall k :: 0 <= k < i ==> !StartsWith(s[1..][k..], p)
    ensures i + 1 + |p| <= |s| && s[i + 1..i + 1 + |p|] == p
    ensures forall k :: 0 <= k < i + 1 ==> !StartsWith(s[k..], p)
  {
    assert s[1..][i..i + |p|] == s[i + 1..i + 1 + |p|];
    forall k | 1 <= k < i + 1
      ensures !StartsWith(s[k..], p)
    {
      assert s[k..] == s[1..][k - 1..];
    }
  }

  /**
   * String.replace(target, replacement) for a non-empty target: every occurrence,
   * found left to right without overlap, is replaced.
   */
  function Replace(s: string, a: string, b: string): string
    requires |a| > 0
    decreases |s|
  {
    if |s| < |a| then s
    else if StartsWith(s, a) then b + Replace(s[|a|..], a, b)
    else [s[0]] + Replace(s[1..], a, b)
  }

  /** A string without an occurrence of the target is left as it is. */
  lemma {:induction false} ReplaceAbsent(s: string, a: string, b: string)
    requires |a| > 0 && !Contains(s, a)
    ensures Replace(s, a, b) == s
  {
    if |s| >= |a| {
      ReplaceAbsent(s[1..], a, b);
      assert [s[0]] + s[1..] == s;
    }
  }

  /** The target alone becomes the replacement. */
  lemma ReplaceWhole(a: string, b: string)
    requires |a| > 0
    ensures Replace(a, a, b) == b
  {
    assert StartsWith(a, a);
    assert a[|a|..] == [];
    assert b + [] == b;
  }

  /** A target after a separator is replaced, and the part before it is replaced on its own. */
  lemma ReplaceAtEnd(u: string, c: char, a: string, b: string)
    requires |a| > 0 && c !in a
    ensures Replace(u + [c] + a, a, b) == Replace(u, a, b) + [c] + b
    ensures !Contains(u, a) ==> Replace(u + [c] + a, a, b) == u + [c] + b
  {
    ReplaceAround(u, c, a, a, b);
    ReplaceWhole(a, b);
    if !Contains(u, a) {
      ReplaceAbsent(u, a, b);
    }
  }

  lemma ReplaceShort(s: string, a: string, b: string)
    requires 0 < |a| && |s| < |a|
    ensures Replace(s, a, b) == s
  {
  }

  /**
   * A character that does not occur in the target splits the replacement:
   * no occurrence can straddle it.
   */
  lemma {:induction false} ReplaceAround(u: string, c: char, v: string, a: string, b: string)
    requires |a| > 0 && c !in a
    ensures Replace(u + [c] + v, a, b) == Replace(u, a, b) + [c] + Replace(v, a, b)
    decreases |u|, 1
  {
    var s := u + [c] + v;
    if |s| < |a| {
      ReplaceShort(u, a, b);
      ReplaceShort(v, a, b);
    } else if StartsWith(s, a) {
      ReplaceAroundAtMatch(u, c, v, a, b);
    } else if u == [] {
      assert s[1..] == v;
      assert s[0] == c;
      assert Replace(u, a, b) == [];
    } else {
      ReplaceAroundPastHead(u, c, v, a, b);
    }
  }

  /** ReplaceAround when an occurrence of the target opens the string. */
  lemma {:induction false} ReplaceAroundAtMatch(u: string, c: char, v: string, a: string, b: string)
    requires |a| > 0 && c !in a && StartsWith(u + [c] + v, a)
    ensures Replace(u + [c] + v, a, b) == Replace(u, a, b) + [c] + Replace(v, a, b)
    decreases |u|, 0
  {
    MatchBeforeSeparator(u, c, v, a);
    ReplaceAround(u[|a|..], c, v, a, b);
    calc {
      Replace(u + [c] + v, a, b);
      b + Replace(u[|a|..] + [c] + v, a, b);
      b + (Replace(u[|a|..], a, b) + [c] + Replace(v, a, b));
      (b + Replace(u[|a|..], a, b)) + [c] + Replace(v, a, b);
    }
  }

  /** ReplaceAround when a non-empty `u` does not open with the target. */
  lemma {:induction false} ReplaceAroundPastHead(u: string, c: char, v: string, a: string, b: string)
    requires |a| > 0 && c !in a && u != []
    requires |u + [c] + v| >= |a| && !StartsWith(u + [c] + v, a)
    ensures Replace(u + [c] + v, a, b) == Replace(u, a, b) + [c] + Replace(v, a, b)
    decreases |u|, 0
  {
    var s := u + [c] + v;
    assert s[1..] == u[1..] + [c] + v;
    ReplaceAround(u[1..], c, v, a, b);
    NoMatchBeforeSeparator(u, c, v, a, b);
    calc {
      Replace(s, a, b);
      [u[0]] + Replace(u[1..] + [c] + v, a, b);
      [u[0]] + (Replace(u[1..], a, b) + [c] + Replace(v, a, b));
      ([u[0]] + Replace(u[1..], a, b)) + [c] + Replace(v, a, b);
    }
  }

  /** An occurrence that starts before the separator ends before it. */
  lemma MatchBeforeSeparator(u: string, c: char, v: string, a: string)
    requires |a| > 0 && c !in a && StartsWith(u + [c] + v, a)
    ensures StartsWith(u, a) && (u + [c] + v)[|a|..] == u[|a|..] + [c] + v
  {
    var s := u + [c] + v;
    assert s[|u|] == c;
    assert u[..|a|] == s[..|a|];
  }

  /** Without an occurrence at its head, a non-empty `u` keeps its first character. */
  lemma NoMatchBeforeSeparator(u: string, c: char, v: string, a: string, b: string)
    requires |a| > 0 && u != [] && |u + [c] + v| >= |a| && !StartsWith(u + [c] + v, a)
    ensures Replace(u, a, b) == [u[0]] + Replace(u[1..], a, b)
  {
    if |u| < |a| {
      ReplaceShort(u, a, b);
      ReplaceShort(u[1..], a, b);
      assert [u[0]] + u[1..] == u;
    } else {
      assert u[..|a|] == (u + [c] + v)[..|a|];
    }
  }

  /** Characters that String.trim removes from both ends. */
  predicate IsTrimmed(c: char) { c <= ' ' }

  function TrimStart(s: string): (t: string)
    ensures |t| <= |s|
    ensures t == [] || !IsTrimmed(t[0])
  {
    if |s| > 0 && IsTrimmed(s[0]) then TrimStart(s[1..]) else s
  }

  function TrimEnd(s: string): (t: string)
    ensures |t| <= |s|
    ensures t == [] || !IsTrimmed(t[|t| - 1])
  {
    if |s| > 0 && IsTrimmed(s[|s| - 1]) then TrimEnd(s[..|s| - 1]) else s
  }

  /** What TrimStart keeps is a suffix of its argument. */
  lemma {:induction false} TrimStartIsSuffix(s: string)
    ensures TrimStart(s) == s[|s| - |TrimStart(s)|..]
    decreases |s|
  {
    if |s| > 0 && IsTrimmed(s[0]) {
      TrimStartIsSuffix(s[1..]);
    }
  }

  /** What TrimEnd keeps is a prefix of its argument. */
  lemma {:induction false} TrimEndIsPrefix(s: string)
    ensures TrimEnd(s) == s[..|TrimEnd(s)|]
    decreases |s|
  {
    if |s| > 0 && IsTrimmed(s[|s| - 1]) {
      TrimEndIsPrefix(s[..|s| - 1]);
    }
  }

  /** String.trim. */
  function Trim(s: string): (t: string)
    ensures |t| <= |s|
    ensures t == [] || (!IsTrimmed(t[0]) && !IsTrimmed(t[|t| - 1]))
  {
    TrimEndIsPrefix(TrimStart(s));
    TrimEnd(TrimStart(s))
  }

  /** Drops the empty strings at the end of a split result, as String.split with limit 0 does. */
  function DropTrailingEmpty(ps: seq<string>): (r: seq<string>)
    ensures |r| <= |ps| && r == ps[..|r|]
    ensures r == [] || r[|r| - 1] != ""
  {
    if |ps| > 0 && ps[|ps| - 1] == "" then DropTrailingEmpty(ps[..|ps| - 1]) else ps
  }

  /** The pieces of `s` between the occurrences of a literal separator. */
  function Pieces(s: string, sep: string): (ps: seq<string>)
    requires |sep| > 0
    decreases |s|
    ensures |ps| >= 1
  {
    match IndexOf(s, sep)
    case None => [s]
    case Some(i) => [s[..i]] + Pieces(s[i + |sep|..], sep)
  }

  /** String.split for a separator without regular-expression metacharacters. */
  function Split(s: string, sep: string): seq<string>
    requires |sep| > 0
  {
    if !Contains(s, sep) then [s] else DropTrailingEmpty(Pieces(s, sep))
  }

  /** The characters the regular-expression class \s matches. */
  predicate IsSpace(c: char) {
    c == ' ' || c == '\t' || c == '\n' || c == '\U{000B}' || c == '\U{000C}' || c == '\r'
  }

  /** The end of the run of \s characters that starts at `i`. */
  function SpaceRunEnd(s: string, i: nat): (j: nat)
    requires i <= |s|
    decreases |s| - i
    ensures i <= j <= |s|
    ensures forall k :: i <= k < j ==> IsSpace(s[k])
    ensures j == |s| || !IsSpace(s[j])
  {
    if i < |s| && IsSpace(s[i]) then SpaceRunEnd(s, i + 1) else i
  }

  /** The end of a match of the regular expression `\s+=\s+` starting at `i`, if there is one. */
  function AssignMatchAt(s: string, i: nat): (r: Option<nat>)
    requires i <= |s|
    ensures r.Some? ==> i + 3 <= r.value <= |s|
  {
    if i < |s| && IsSpace(s[i]) then
      var j := SpaceRunEnd(s, i);
      if j + 1 < |s| && s[j] == '=' && IsSpace(s[j + 1]) then Some(SpaceRunEnd(s, j + 1)) else None
    else None
  }

  /** The leftmost match of `\s+=\s+` at or after `i`, as (start, end). */
  function FindAssign(s: string, i: nat): (r: Option<(nat, nat)>)
    requires i <= |s|
    decreases |s| - i
    ensures r.Some? ==> i <= r.value.0 && r.value.0 + 3 <= r.value.1 <= |s|
  {
    if i == |s| then None
    else match AssignMatchAt(s, i)
      case Some(e) => Some((i, e))
      case None => FindAssign(s, i + 1)
  }

  function AssignPieces(s: string): (ps: seq<string>)
    decreases |s|
    ensures |ps| >= 1
  {
    match FindAssign(s, 0)
    case None => [s]
    case Some(m) => [s[..m.0]] + AssignPieces(s[m.1..])
  }

  /** String.split("\\s+=\\s+"): a PDS `KEY = VALUE` line cut at its assignment sign. */
  function SplitAssign(s: string): seq<string> {
    if FindAssign(s, 0).None? then [s] else DropTrailingEmpty(AssignPieces(s))
  }

  predicate IsDigit(c: char) { '0' as int <= c as int <= '9' as int }

  function DigitsValue(s: string): nat
    requires forall k :: 0 <= k < |s| ==> IsDigit(s[k])
  {
    if s == [] then 0
    else
      assert IsDigit(s[|s| - 1]);
      10 * DigitsValue(s[..|s| - 1]) + (s[|s| - 1] as int - '0' as int)
  }

  /** Integer.parseInt on ASCII digits; None stands for a NumberFormatException. */
  function ParseInt(s: string): (r: Option<int>)
    ensures r.Some? ==> INT_MIN <= r.value <= INT_MAX
  {
    if |s| == 0 then None
    else
      var body := if s[0] == '-' || s[0] == '+' then s[1..] else s;
      if |body| == 0 || exists k :: 0 <= k < |body| && !IsDigit(body[k]) then None
      else
        var v: int := if s[0] == '-' then -(DigitsValue(body) as int) else DigitsValue(body);
        if INT_MIN <= v <= INT_MAX then Some(v) else None
  }
}
