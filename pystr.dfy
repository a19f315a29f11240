/**
  The handful of Python `str` operations the application relies on, written
  out with CPython's semantics: substring search (`find` and `in`),
  `replace` (every non-overlapping occurrence, scanned left to right),
  `split(sep)`, `split(sep, 1)`, `sep.join(parts)`, `endswith` and `strip()`.
*/
module PyStr {
  import opened Wrappers

  // ---------------------------------------------------------------------
  // Search

  /** `s[i:i+len(p)] == p`: an occurrence of `p` starts at index `i` of `s`. */
  predicate IsAt(s: string, i: int, p: string) {
    0 <= i && i + |p| <= |s| && s[i..i + |p|] == p
  }

  /** `s.find(p)`: the index of the first occurrence of `p` in `s`, if any. */
  function Find(s: string, p: string): (r: Option<nat>)
    ensures r.Some? ==> r.value + |p| <= |s|
    decreases |s|
  {
    if |s| < |p| then None
    else if s[..|p|] == p then Some(0)
    else
      match Find(s[1..], p)
      case None => None
      case Some(i) => Some(i + 1)
  }

  /** `p in s`. */
  predicate Contains(s: string, p: string) {
    Find(s, p).Some?
  }

  /** `find` reports an occurrence. */
  lemma {:induction false} FindFound(s: string, p: string)
    ensures Find(s, p).Some? ==> IsAt(s, Find(s, p).value, p)
    decreases |s|
  {
    if |s| >= |p| && s[..|p|] != p {
      FindFound(s[1..], p);
      match Find(s[1..], p)
      case None =>
      case Some(i) =>
        assert s[1..][i..i + |p|] == s[i + 1..i + 1 + |p|];
    }
  }

  /** No occurrence comes before the one `find` reports, and `find` misses none. */
  lemma {:induction false} FindFirst(s: string, p: string, j: int)
    ensures IsAt(s, j, p) ==> Find(s, p).Some? && Find(s, p).value <= j
    decreases |s|
  {
    if IsAt(s, j, p) && s[..|p|] != p {
      assert j != 0 by { assert s[0..|p|] == s[..|p|]; }
      assert s[1..][j - 1..j - 1 + |p|] == s[j..j + |p|];
      FindFirst(s[1..], p, j - 1);
    }
  }

  /** An occurrence with none before it is the one `find` reports. */
  lemma FindIsFirst(s: string, p: string, i: nat)
    requires IsAt(s, i, p)
    requires forall j :: 0 <= j < i ==> !IsAt(s, j, p)
    ensures Find(s, p) == Some(i)
  {
    FindFirst(s, p, i);
    FindFound(s, p);
  }

  lemma SliceOfSlice(s: string, a: nat, b: nat, c: nat, d: nat)
    requires a <= b <= |s| && c <= d <= b - a
    ensures s[a..b][c..d] == s[a + c..a + d]
  {
    var l, r := s[a..b][c..d], s[a + c..a + d];
    forall m | 0 <= m < |l| ensures l[m] == r[m] {}
  }

  /** An occurrence cuts the string into what precedes it, itself and what follows. */
  lemma SplitAround(s: string, i: nat, p: string)
    requires IsAt(s, i, p)
    ensures s == s[..i] + p + s[i + |p|..]
  {
    assert s == s[..i] + s[i..i + |p|] + s[i + |p|..];
  }

  /** The middle part of a three-part concatenation occurs right after the first part. */
  lemma IsAtMiddle(x: string, p: string, y: string)
    ensures IsAt(x + p + y, |x|, p)
  {
    assert (x + p + y)[|x|..|x| + |p|] == p;
  }

  /** An occurrence in `y` is an occurrence in `x + y`, shifted by `|x|`. */
  lemma IsAtShift(x: string, y: string, k: int, p: string)
    requires IsAt(y, k, p)
    ensures IsAt(x + y, |x| + k, p)
  {
    assert (x + y)[|x| + k..|x| + k + |p|] == y[k..k + |p|];
  }

  /** An occurrence in `x` is an occurrence in `x + y`, at the same place. */
  lemma IsAtPrefix(x: string, y: string, k: int, p: string)
    requires IsAt(x, k, p)
    ensures IsAt(x + y, k, p)
  {
    assert (x + y)[k..k + |p|] == x[k..k + |p|];
  }

  /** A string ends with what was appended to it. */
  lemma IsAtEnd(x: string, p: string)
    ensures IsAt(x + p, |x|, p)
  {
    assert (x + p)[|x|..|x| + |p|] == p;
  }

  /** An occurrence in `x` survives two appends. */
  lemma IsAtPrefix2(x: string, y: string, z: string, k: int, p: string)
    requires IsAt(x, k, p)
    ensures IsAt(x + y + z, k, p)
  {
    IsAtPrefix(x, y, k, p);
    IsAtPrefix(x + y, z, k, p);
  }

  /** A slice of a string without `p` has no `p` either. */
  lemma AbsentFromSlice(s: string, p: string, a: nat, b: nat)
    requires a <= b <= |s|
    requires !Contains(s, p)
    ensures !Contains(s[a..b], p)
  {
    forall j | 0 <= j ensures !IsAt(s[a..b], j, p) {
      FindFirst(s, p, a + j);
      if j + |p| <= b - a {
        SliceOfSlice(s, a, b, j, j + |p|);
      }
    }
    FindFound(s[a..b], p);
  }

  /** Nothing before the first occurrence contains the pattern. */
  lemma NoOccurrenceBeforeFirst(s: string, p: string, i: nat)
    requires p != "" && Find(s, p) == Some(i)
    ensures !Contains(s[..i], p)
  {
    forall j | 0 <= j ensures !IsAt(s[..i], j, p) {
      FindFirst(s, p, j);
      if j + |p| <= i {
        SliceOfSlice(s, 0, i, j, j + |p|);
        assert s[..i] == s[0..i];
      }
    }
    FindFound(s[..i], p);
  }

  /** A string lacking some character of `p` cannot contain `p`. */
  lemma MissingCharExcludes(s: string, p: string, k: nat)
    requires k < |p| && p[k] !in s
    ensures !Contains(s, p)
  {
    forall j | 0 <= j && j + |p| <= |s| ensures !IsAt(s, j, p) {
      assert s[j..j + |p|][k] == s[j + k];
    }
    FindFound(s, p);
  }

  /**
    If an occurrence starts at `i` and the character `p[k]` does not appear
    in `s[k..i + k]`, no earlier occurrence can exist: `i` is the first.
  */
  lemma FirstByMissingChar(s: string, p: string, i: nat, k: nat)
    requires IsAt(s, i, p) && k < |p|
    requires p[k] !in s[k..i + k]
    ensures Find(s, p) == Some(i)
  {
    forall j | 0 <= j < i ensures !IsAt(s, j, p) {
      assert s[j..j + |p|][k] == s[j + k];
      assert s[k..i + k][j] == s[j + k];
    }
    FindIsFirst(s, p, i);
  }

  /**
    `x + p + y` is cut by `split(p, 1)` right after `x` when some character
    `p[k]` occurs neither in `x` nor in `p` before position `k`.
  */
  lemma FirstCutByChar(x: string, p: string, y: string, k: nat)
    requires k < |p| && p[k] !in x && p[k] !in p[..k]
    ensures FirstCut(x + p + y, p, x, y)
  {
    var s := x + p + y;
    IsAtMiddle(x, p, y);
    forall m | k <= m < |x| + k ensures s[m] != p[k] {
      if m < |x| {
        assert s[m] == x[m];
      } else {
        assert s[m] == p[..k][m - |x|];
      }
    }
    FirstByMissingChar(s, p, |x|, k);
  }

  /**
    `p` occurs neither in `x` nor across the end of `x` into a following
    `p`: placed right after `x`, this `p` is the first one.
  */
  predicate NotBefore(x: string, p: string) {
    p != "" && !Contains(x + p[..|p| - 1], p)
  }

  /** `x + p + y` is cut by `split(p, 1)` right after `x` exactly when `p` is not before. */
  lemma FirstCutAfter(x: string, p: string, y: string)
    requires NotBefore(x, p)
    ensures FirstCut(x + p + y, p, x, y)
  {
    var s := x + p + y;
    var t := x + p[..|p| - 1];
    IsAtMiddle(x, p, y);
    forall j | 0 <= j < |x| ensures !IsAt(s, j, p) {
      if IsAt(s, j, p) {
        assert s[..|t|] == t;
        assert t[j..j + |p|] == s[j..j + |p|];
        FindFirst(t, p, j);
        assert false;
      }
    }
    FindIsFirst(s, p, |x|);
  }

  /**
    A character `p[k]` that occurs neither in `x` nor in `p` before
    position `k` keeps `p` from occurring before its place after `x`.
  */
  lemma TailCutByChar(x: string, p: string, k: nat)
    requires k < |p| && p[k] !in x && p[k] !in p[..k]
    ensures NotBefore(x, p)
  {
    var t := x + p[..|p| - 1];
    forall j | 0 <= j && j + |p| <= |t| ensures !IsAt(t, j, p) {
      assert t[j..j + |p|][k] == t[j + k];
      if j + k < |x| {
        assert t[j + k] == x[j + k];
      } else {
        assert t[j + k] == p[..k][j + k - |x|];
      }
    }
    FindFound(t, p);
  }

  /** `s.endswith(suffix)`. */
  predicate EndsWith(s: string, suffix: string) {
    |suffix| <= |s| && s[|s| - |suffix|..] == suffix
  }

  // ---------------------------------------------------------------------
  // Replace, split and join

  /** `s.replace(target, replacement)`: every non-overlapping occurrence, leftmost first. */
  function Replace(s: string, target: string, replacement: string): string
    requires target != ""
    decreases |s|
  {
    match Find(s, target)
    case None => s
    case Some(i) => s[..i] + replacement + Replace(s[i + |target|..], target, replacement)
  }

  /** `s.split(sep)` for a non-empty separator. */
  function Split(s: string, sep: string): (parts: seq<string>)
    requires sep != ""
    ensures |parts| >= 1
    decreases |s|
  {
    match Find(s, sep)
    case None => [s]
    case Some(i) => [s[..i]] + Split(s[i + |sep|..], sep)
  }

  /** `s.split(sep, 1)`: at most one cut, at the first occurrence of `sep`. */
  function SplitOnce(s: string, sep: string): (parts: seq<string>)
    requires sep != ""
    ensures |parts| == 1 || |parts| == 2
    ensures |parts| == 2 <==> Contains(s, sep)
    ensures |parts| == 1 ==> parts[0] == s
    ensures |parts| == 2 ==> s == parts[0] + sep + parts[1] && Find(s, sep) == Some(|parts[0]|)
  {
    match Find(s, sep)
    case None => [s]
    case Some(i) =>
      FindFound(s, sep);
      SplitAround(s, i, sep);
      [s[..i], s[i + |sep|..]]
  }

  /**
    `s` is `before + sep + after` and this `sep` is its first occurrence:
    what `s.split(sep, 1)` yields when `sep in s`.
  */
  predicate FirstCut(s: string, sep: string, before: string, after: string) {
    s == before + sep + after && Find(s, sep) == Some(|before|)
  }

  /** `split(sep, 1)` returns exactly the two sides of the first cut. */
  lemma SplitOnceCut(s: string, sep: string, before: string, after: string)
    requires sep != "" && FirstCut(s, sep, before, after)
    ensures SplitOnce(s, sep) == [before, after]
  {
    assert s[..|before|] == before;
    assert s[|before| + |sep|..] == after;
  }

  /** When `sep in s`, the first cut exists. */
  lemma CutExists(s: string, sep: string) returns (before: string, after: string)
    requires sep != "" && Contains(s, sep)
    ensures FirstCut(s, sep, before, after)
  {
    var parts := SplitOnce(s, sep);
    before, after := parts[0], parts[1];
  }

  /** `sep.join(parts)`. */
  function Join(parts: seq<string>, sep: string): string
    decreases |parts|
  {
    if |parts| == 0 then ""
    else if |parts| == 1 then parts[0]
    else parts[0] + sep + Join(parts[1..], sep)
  }

  /** A string that begins with the target and has no further occurrence: one rewrite. */
  lemma ReplaceLeading(t: string, x: string, r: string)
    requires t != "" && !Contains(x, t)
    ensures Replace(t + x, t, r) == r + x
  {
    ReplaceOpening(t, x, r);
    ReplaceAbsent(x, t, r);
  }

  /**
    `replace` rewrites every occurrence, not only the first: two
    occurrences separated by text free of the target's first character
    are both rewritten.
  */
  lemma ReplaceTwoOccurrences(t: string, x: string, y: string, r: string)
    requires t != "" && t[0] !in x && t[0] !in y
    ensures Replace(t + x + t + y, t, r) == r + x + r + y
  {
    assert t + x + t + y == t + (x + t + y);
    ReplaceOpening(t, x + t + y, r);
    ReplaceAfterClean(t, x, y, r);
    MissingCharExcludes(y, t, 0);
    ReplaceAbsent(y, t, r);
  }

  /** A string that opens with the target has it rewritten, then the rest. */
  lemma ReplaceOpening(t: string, z: string, r: string)
    requires t != ""
    ensures Replace(t + z, t, r) == r + Replace(z, t, r)
  {
    assert (t + z)[..|t|] == t && (t + z)[|t|..] == z;
    assert Find(t + z, t) == Some(0);
    assert (t + z)[..0] == [];
  }

  /** Text free of the target's first character is kept up to the first occurrence. */
  lemma ReplaceAfterClean(t: string, x: string, y: string, r: string)
    requires t != "" && t[0] !in x
    ensures Replace(x + t + y, t, r) == x + r + Replace(y, t, r)
  {
    var s := x + t + y;
    FirstCutByChar(x, t, y, 0);
    assert s[..|x|] == x && s[|x| + |t|..] == y;
  }

  /** `replace` leaves a string without the target untouched. */
  lemma ReplaceAbsent(s: string, t: string, r: string)
    requires t != "" && !Contains(s, t)
    ensures Replace(s, t, r) == s
  {
  }

  /** Prepending one part puts it and the separator in front. */
  lemma JoinCons(x: string, parts: seq<string>, sep: string)
    requires parts != []
    ensures Join([x] + parts, sep) == x + sep + Join(parts, sep)
  {
    assert ([x] + parts)[1..] == parts;
  }

  /** The summed length of the parts. */
  function TotalLength(parts: seq<string>): nat
    decreases |parts|
  {
    if parts == [] then 0 else |parts[0]| + TotalLength(parts[1..])
  }

  lemma {:induction false} TotalLengthAppend(parts: seq<string>, x: string)
    ensures TotalLength(parts + [x]) == TotalLength(parts) + |x|
    decreases |parts|
  {
    if parts != [] {
      assert (parts + [x])[1..] == parts[1..] + [x];
      TotalLengthAppend(parts[1..], x);
    }
  }

  /** `sep.join(parts)` holds every part and one separator between each two. */
  lemma {:induction false} JoinLength(parts: seq<string>, sep: string)
    requires parts != []
    ensures |Join(parts, sep)| == TotalLength(parts) + (|parts| - 1) * |sep|
    decreases |parts|
  {
    if |parts| > 1 {
      JoinLength(parts[1..], sep);
    }
  }

  /** Appending one part adds the separator and that part at the end. */
  lemma {:induction false} JoinAppend(parts: seq<string>, x: string, sep: string)
    requires parts != []
    ensures Join(parts + [x], sep) == Join(parts, sep) + sep + x
    decreases |parts|
  {
    if |parts| > 1 {
      assert (parts + [x])[1..] == parts[1..] + [x];
      JoinAppend(parts[1..], x, sep);
    } else {
      assert (parts + [x])[1..] == [x];
    }
  }

  /** No piece that `split` produces contains the separator. */
  lemma {:induction false} SplitPiecesClean(s: string, sep: string)
    requires sep != ""
    ensures forall k :: 0 <= k < |Split(s, sep)| ==> !Contains(Split(s, sep)[k], sep)
    decreases |s|
  {
    match Find(s, sep)
    case None =>
    case Some(i) =>
      NoOccurrenceBeforeFirst(s, sep, i);
      SplitPiecesClean(s[i + |sep|..], sep);
  }

  /** Joining the pieces of a split with the separator gives back the string. */
  lemma {:induction false} JoinSplit(s: string, sep: string)
    requires sep != ""
    ensures Join(Split(s, sep), sep) == s
    decreases |s|
  {
    FindFound(s, sep);
    match Find(s, sep)
    case None =>
    case Some(i) =>
      var rest := s[i + |sep|..];
      JoinSplit(rest, sep);
      JoinCons(s[..i], Split(rest, sep), sep);
      SplitAround(s, i, sep);
  }

  /**
    Python's identity `s.replace(t, r) == r.join(s.split(t))`: `Replace`
    agrees with this independent definition by splitting and joining.
  */
  lemma {:induction false} ReplaceIsJoinOfSplit(s: string, t: string, r: string)
    requires t != ""
    ensures Replace(s, t, r) == Join(Split(s, t), r)
    decreases |s|
  {
    match Find(s, t)
    case None =>
    case Some(i) =>
      ReplaceIsJoinOfSplit(s[i + |t|..], t, r);
      JoinSplitStep(s, t, r, i);
  }

  /** Splitting at the first occurrence, then joining with `r`. */
  lemma JoinSplitStep(s: string, t: string, r: string, i: nat)
    requires t != "" && Find(s, t) == Some(i)
    ensures Join(Split(s, t), r) == s[..i] + r + Join(Split(s[i + |t|..], t), r)
  {
    JoinCons(s[..i], Split(s[i + |t|..], t), r);
  }

  /** Replacing with a string of the same length keeps the length. */
  lemma {:induction false} ReplaceKeepsLength(s: string, t: string, r: string)
    requires t != "" && |r| == |t|
    ensures |Replace(s, t, r)| == |s|
    decreases |s|
  {
    match Find(s, t)
    case None =>
    case Some(i) =>
      ReplaceKeepsLength(s[i + |t|..], t, r);
  }

  /**
    With a one-character separator that no part contains, `split` undoes
    `join`: the parts come back, in order.
  */
  lemma {:induction false} SplitJoin(parts: seq<string>, sep: string)
    requires |sep| == 1 && parts != []
    requires forall k :: 0 <= k < |parts| ==> !Contains(parts[k], sep)
    ensures Split(Join(parts, sep), sep) == parts
    decreases |parts|
  {
    var x := parts[0];
    if |parts| == 1 {
    } else {
      var tail := Join(parts[1..], sep);
      var s := x + sep + tail;
      assert IsAt(s, |x|, sep) by { assert s[|x|..|x| + 1] == sep; }
      assert !Contains(x, sep);
      forall j | 0 <= j < |x| ensures !IsAt(s, j, sep) {
        FindFirst(x, sep, j);
        assert s[j..j + 1] == x[j..j + 1];
      }
      FindIsFirst(s, sep, |x|);
      assert s[..|x|] == x;
      assert s[|x| + 1..] == tail;
      SplitJoin(parts[1..], sep);
      JoinCons(x, parts[1..], sep);
      assert parts == [x] + parts[1..];
    }
  }

  // ---------------------------------------------------------------------
  // Strip

  /**
    `str.isspace()` for one character: CPython's whitespace table (the
    characters of bidirectional class WS, B or S, or of category Zs).
  */
  predicate IsSpace(c: char) {
    || '\U{0009}' <= c <= '\U{000D}'
    || '\U{001C}' <= c <= '\U{001F}'
    || c == ' '
    || c == '\U{0085}'
    || c == '\U{00A0}'
    || c == '\U{1680}'
    || '\U{2000}' <= c <= '\U{200A}'
    || c == '\U{2028}'
    || c == '\U{2029}'
    || c == '\U{202F}'
    || c == '\U{205F}'
    || c == '\U{3000}'
  }

  predicate AllSpace(s: string) {
    forall i :: 0 <= i < |s| ==> IsSpace(s[i])
  }

  lemma AllSpaceConcat(a: string, b: string)
    requires AllSpace(a) && AllSpace(b)
    ensures AllSpace(a + b)
  {
    forall k | 0 <= k < |a + b| ensures IsSpace((a + b)[k]) {
      if k < |a| { assert (a + b)[k] == a[k]; } else { assert (a + b)[k] == b[k - |a|]; }
    }
  }

  /** No whitespace at either end: what `strip()` guarantees of its result. */
  predicate Stripped(s: string) {
    s == "" || (!IsSpace(s[0]) && !IsSpace(s[|s| - 1]))
  }

  /** `s.lstrip()`. */
  function TrimStart(s: string): (r: string)
    ensures |r| <= |s| && r == s[|s| - |r|..]
    ensures AllSpace(s[..|s| - |r|])
    ensures r == "" || !IsSpace(r[0])
    decreases |s|
  {
    if |s| > 0 && IsSpace(s[0]) then
      var r := TrimStart(s[1..]);
      LeadingSpaceStep(s, r);
      r
    else s
  }

  /** `s.rstrip()`. */
  function TrimEnd(s: string): (r: string)
    ensures |r| <= |s| && r == s[..|r|]
    ensures AllSpace(s[|r|..])
    ensures r == "" || !IsSpace(r[|r| - 1])
    decreases |s|
  {
    if |s| > 0 && IsSpace(s[|s| - 1]) then
      var r := TrimEnd(s[..|s| - 1]);
      TrailingSpaceStep(s, r);
      r
    else s
  }

  /** One leading whitespace character more before a trimmed suffix. */
  lemma LeadingSpaceStep(s: string, r: string)
    requires |s| > 0 && IsSpace(s[0])
    requires |r| <= |s| - 1 && r == s[1..][|s| - 1 - |r|..] && AllSpace(s[1..][..|s| - 1 - |r|])
    ensures r == s[|s| - |r|..] && AllSpace(s[..|s| - |r|])
  {
    assert s[1..][|s| - 1 - |r|..] == s[|s| - |r|..];
    assert s[..|s| - |r|] == [s[0]] + s[1..][..|s| - 1 - |r|];
    AllSpaceConcat([s[0]], s[1..][..|s| - 1 - |r|]);
  }

  /** One trailing whitespace character more after a trimmed prefix. */
  lemma TrailingSpaceStep(s: string, r: string)
    requires |s| > 0 && IsSpace(s[|s| - 1])
    requires |r| <= |s| - 1 && r == s[..|s| - 1][..|r|] && AllSpace(s[..|s| - 1][|r|..])
    ensures r == s[..|r|] && AllSpace(s[|r|..])
  {
    assert s[..|s| - 1][..|r|] == s[..|r|];
    assert s[|r|..] == s[..|s| - 1][|r|..] + [s[|s| - 1]];
    AllSpaceConcat(s[..|s| - 1][|r|..], [s[|s| - 1]]);
  }

  /** `s.strip()`: leading and trailing whitespace removed. */
  function Strip(s: string): (r: string)
    ensures Stripped(r)
  {
    TrimEnd(TrimStart(s))
  }

  /**
    `strip()` keeps one contiguous window of its input: everything before
    and after it is whitespace, and the window itself starts and ends with
    non-whitespace (or is empty).
  */
  lemma StripWindow(s: string) returns (i: nat, j: nat)
    ensures i <= j <= |s| && Strip(s) == s[i..j]
    ensures AllSpace(s[..i]) && AllSpace(s[j..])
    ensures i < j ==> !IsSpace(s[i]) && !IsSpace(s[j - 1])
  {
    var t := TrimStart(s);
    i, j := TrimmedWindow(s, t, TrimEnd(t));
  }

  /** A suffix `t` of `s` after whitespace, and a prefix `r` of `t` before whitespace. */
  lemma TrimmedWindow(s: string, t: string, r: string) returns (i: nat, j: nat)
    requires |t| <= |s| && t == s[|s| - |t|..] && AllSpace(s[..|s| - |t|])
    requires t == "" || !IsSpace(t[0])
    requires |r| <= |t| && r == t[..|r|] && AllSpace(t[|r|..])
    requires r == "" || !IsSpace(r[|r| - 1])
    ensures i == |s| - |t| && j == i + |r| && r == s[i..j]
    ensures AllSpace(s[..i]) && AllSpace(s[j..])
    ensures i < j ==> !IsSpace(s[i]) && !IsSpace(s[j - 1])
  {
    i := |s| - |t|;
    j := i + |r|;
    assert t[|r|..] == s[j..];
    if i < j {
      assert s[i] == t[0] && s[j - 1] == r[|r| - 1];
    }
  }

  /** `strip()` gives the empty string exactly on all-whitespace input. */
  lemma StripEmptyIffAllSpace(s: string)
    ensures Strip(s) == "" <==> AllSpace(s)
  {
    var i, j := StripWindow(s);
    if i == j {
      forall k | 0 <= k < |s| ensures IsSpace(s[k]) {
        if k < i { assert s[..i][k] == s[k]; } else { assert s[j..][k - j] == s[k]; }
      }
    }
  }

  /** A string with no whitespace at either end is its own strip. */
  lemma StripStripped(s: string)
    requires Stripped(s)
    ensures Strip(s) == s
  {
  }

  lemma {:induction false} TrimStartSpaces(ws: string, x: string)
    requires AllSpace(ws) && (x == "" || !IsSpace(x[0]))
    ensures TrimStart(ws + x) == x
    decreases |ws|
  {
    if ws != [] {
      assert (ws + x)[0] == ws[0];
      assert (ws + x)[1..] == ws[1..] + x;
      TrimStartSpaces(ws[1..], x);
    }
  }

  lemma {:induction false} TrimEndSpaces(x: string, ws: string)
    requires AllSpace(ws) && (x == "" || !IsSpace(x[|x| - 1]))
    ensures TrimEnd(x + ws) == x
    decreases |ws|
  {
    if ws != [] {
      var n := |ws| - 1;
      assert (x + ws)[|x| + n] == ws[n];
      assert (x + ws)[..|x| + n] == x + ws[..n];
      TrimEndSpaces(x, ws[..n]);
    }
  }

  /**
    The converse of `StripWindow`: surrounding a string that has no
    whitespace at its ends with whitespace on both sides, then stripping,
    gives the string back.
  */
  lemma StripPadded(ws1: string, x: string, ws2: string)
    requires AllSpace(ws1) && AllSpace(ws2) && Stripped(x)
    ensures Strip(ws1 + x + ws2) == x
  {
    if x == "" {
      assert ws1 + x + ws2 == (ws1 + ws2) + "";
      TrimStartSpaces(ws1 + ws2, "");
    } else {
      assert ws1 + x + ws2 == ws1 + (x + ws2);
      TrimStartSpaces(ws1, x + ws2);
      TrimEndSpaces(x, ws2);
    }
  }

  /** `strip()` is idempotent. */
  lemma StripIdempotent(s: string)
    ensures Strip(Strip(s)) == Strip(s)
  {
    StripStripped(Strip(s));
  }

  /** A string without `p` keeps it out of its strip. */
  lemma StripKeepsAbsence(s: string, p: string)
    requires !Contains(s, p)
    ensures !Contains(Strip(s), p)
  {
    var i, j := StripWindow(s);
    AbsentFromSlice(s, p, i, j);
  }
}
