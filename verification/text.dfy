/** The string operations the routes lean on, written out over `seq<char>`:
    `trim`, `toLowerCase`/`toUpperCase`, `includes`, `startsWith`, `join`
    and `split`, with JavaScript's meaning. */
module Text {

  /** JavaScript's WhiteSpace and LineTerminator code points: what `trim`
      removes and what the regular-expression class `\s` matches. */
  predicate IsSpace(c: char) {
    || c == ' ' || c == '\t' || c == '\n' || c == '\U{000B}' || c == '\U{000C}' || c == '\r'
    || c == '\U{00A0}' || c == '\U{1680}' || ('\U{2000}' <= c <= '\U{200A}')
    || c == '\U{2028}' || c == '\U{2029}' || c == '\U{202F}' || c == '\U{205F}'
    || c == '\U{3000}' || c == '\U{FEFF}'
  }

  predicate NoSpaceAtEnds(s: string) {
    |s| == 0 || (!IsSpace(s[0]) && !IsSpace(s[|s| - 1]))
  }

  /** Drops leading white space. */
  function TrimStart(s: string): (r: string)
    ensures |r| <= |s| && r == s[|s| - |r|..]
    ensures forall k | 0 <= k < |s| - |r| :: IsSpace(s[k])
    ensures |r| == 0 || !IsSpace(r[0])
    decreases |s|
  {
    if |s| > 0 && IsSpace(s[0]) then TrimStart(s[1..]) else s
  }

  /** Drops trailing white space. */
  function TrimEnd(s: string): (r: string)
    ensures |r| <= |s| && r == s[..|r|]
    ensures forall k | |r| <= k < |s| :: IsSpace(s[k])
    ensures |r| == 0 || !IsSpace(r[|r| - 1])
    decreases |s|
  {
    if |s| > 0 && IsSpace(s[|s| - 1]) then TrimEnd(s[..|s| - 1]) else s
  }

  /** `String.prototype.trim`: the middle of `s` between its leading and
      trailing white space. */
  function Trim(s: string): (r: string)
    ensures NoSpaceAtEnds(r)
    ensures Contains(s, r)
  {
    var a := TrimStart(s);
    var r := TrimEnd(a);
    TrimIsSlice(s, a, r);
    r
  }

  lemma TrimIsSlice(s: string, a: string, r: string)
    requires |a| <= |s| && a == s[|s| - |a|..]
    requires |r| <= |a| && r == a[..|r|]
    ensures Contains(s, r)
  {
    var i := |s| - |a|;
    assert r == s[i..i + |r|];
    ContainsSlice(s, i, i + |r|);
  }

  lemma {:induction false} TrimStartOfTrimmed(s: string)
    requires |s| == 0 || !IsSpace(s[0])
    ensures TrimStart(s) == s
  {
  }

  lemma {:induction false} TrimEndOfTrimmed(s: string)
    requires |s| == 0 || !IsSpace(s[|s| - 1])
    ensures TrimEnd(s) == s
  {
  }

  /** Text without white space at either end trims to itself. */
  lemma TrimOfTrimmed(s: string)
    requires |s| == 0 || (!IsSpace(s[0]) && !IsSpace(s[|s| - 1]))
    ensures Trim(s) == s
  {
    TrimStartOfTrimmed(s);
    TrimEndOfTrimmed(s);
  }

  /** Trimming twice is trimming once. */
  lemma TrimIdempotent(s: string)
    ensures Trim(Trim(s)) == Trim(s)
  {
    var t := Trim(s);
    TrimStartOfTrimmed(t);
    TrimEndOfTrimmed(t);
  }

  /** `toLowerCase` on one code point, for the Basic Latin and Latin-1
      Supplement letters (`É` becomes `é`). */
  function LowerChar(c: char): char {
    if 'A' <= c <= 'Z' || ('\U{00C0}' <= c <= '\U{00DE}' && c != '\U{00D7}') then
      (c as int + 32) as char
    else
      c
  }

  /** `String.prototype.toLowerCase`. */
  function ToLower(s: string): (r: string)
    ensures |r| == |s|
    ensures forall k | 0 <= k < |s| :: r[k] == LowerChar(s[k])
  {
    seq(|s|, k requires 0 <= k < |s| => LowerChar(s[k]))
  }

  lemma LowerCharIdempotent(c: char)
    ensures LowerChar(LowerChar(c)) == LowerChar(c)
  {
  }

  /** Lower-casing a lower-cased string changes nothing. */
  lemma ToLowerIdempotent(s: string)
    ensures ToLower(ToLower(s)) == ToLower(s)
  {
    forall k | 0 <= k < |s|
      ensures ToLower(ToLower(s))[k] == ToLower(s)[k]
    {
      LowerCharIdempotent(s[k]);
    }
  }

  lemma ToLowerConcat(a: string, b: string)
    ensures ToLower(a + b) == ToLower(a) + ToLower(b)
  {
  }

  /** `toUpperCase` on one code point, for the Basic Latin and Latin-1
      Supplement letters; `ß` becomes two letters, as in JavaScript. */
  function UpperChar(c: char): string {
    if 'a' <= c <= 'z' || ('\U{00E0}' <= c <= '\U{00FE}' && c != '\U{00F7}') then
      [(c as int - 32) as char]
    else if c == '\U{00DF}' then
      "SS"
    else if c == '\U{00FF}' then
      ['\U{0178}']
    else if c == '\U{00B5}' then
      ['\U{039C}']
    else
      [c]
  }

  /** `String.prototype.toUpperCase`. */
  function ToUpper(s: string): (r: string)
    ensures |r| >= |s|
    ensures |s| > 0 ==> |r| > 0
  {
    if |s| == 0 then "" else UpperChar(s[0]) + ToUpper(s[1..])
  }

  /** `s.startsWith(p)`. */
  predicate StartsWith(s: string, p: string) {
    p <= s
  }

  /** `s.includes(n)`: `n` occurs somewhere in `s`. */
  predicate Contains(s: string, n: string)
    decreases |s|
  {
    n <= s || (|s| > 0 && Contains(s[1..], n))
  }

  /** Every slice of `s` occurs in `s`. */
  lemma {:induction false} ContainsSlice(s: string, i: nat, j: nat)
    requires i <= j <= |s|
    ensures Contains(s, s[i..j])
    decreases i
  {
    if i > 0 {
      ContainsSlice(s[1..], i - 1, j - 1);
      assert s[1..][i - 1..j - 1] == s[i..j];
    }
  }

  /** `parts.join(sep)`. */
  function Join(sep: string, parts: seq<string>): string
    decreases |parts|
  {
    if |parts| == 0 then ""
    else if |parts| == 1 then parts[0]
    else parts[0] + sep + Join(sep, parts[1..])
  }

  /** Position of the first `d` in `s`, or `|s|` when there is none. */
  function IndexOf(s: string, d: char): (i: nat)
    ensures i <= |s|
    ensures i < |s| ==> s[i] == d
    ensures forall k | 0 <= k < i :: s[k] != d
    decreases |s|
  {
    if |s| == 0 || s[0] == d then 0 else 1 + IndexOf(s[1..], d)
  }

  /** `s.split(d)` for a one-character separator: the pieces between the
      occurrences of `d`, never fewer than one. */
  function SplitOn(s: string, d: char): (r: seq<string>)
    ensures |r| >= 1
    ensures forall k | 0 <= k < |r| :: d !in r[k]
    decreases |s|
  {
    if IndexOf(s, d) == |s| then [s] else [s[..IndexOf(s, d)]] + SplitOn(s[IndexOf(s, d) + 1..], d)
  }

  /** `split` and `join` with the same separator are inverse: the pieces put
      back together with `d` give the original string. */
  lemma {:induction false} JoinSplitOn(s: string, d: char)
    ensures Join([d], SplitOn(s, d)) == s
    decreases |s|
  {
    var i := IndexOf(s, d);
    if i < |s| {
      var rest := SplitOn(s[i + 1..], d);
      JoinSplitOn(s[i + 1..], d);
      assert SplitOn(s, d) == [s[..i]] + rest;
      JoinCons([d], s[..i], rest);
      SliceAround(s, i);
    } else {
      assert SplitOn(s, d) == [s];
    }
  }

  lemma JoinCons(sep: string, part: string, rest: seq<string>)
    requires |rest| >= 1
    ensures Join(sep, [part] + rest) == part + sep + Join(sep, rest)
  {
    assert ([part] + rest)[1..] == rest;
  }

  lemma SliceAround<T>(s: seq<T>, i: nat)
    requires i < |s|
    ensures s[..i] + [s[i]] + s[i + 1..] == s
  {
  }

  /** A string without the separator splits into itself alone. */
  lemma SplitOnAbsent(s: string, d: char)
    requires d !in s
    ensures IndexOf(s, d) == |s|
    ensures SplitOn(s, d) == [s]
  {
    assert forall k | 0 <= k < |s| :: s[k] != d;
  }

  /** Splitting `a + [d] + b`, where `a` has no `d`, gives `a` and then the
      pieces of `b`. */
  lemma SplitOnFirst(a: string, d: char, b: string)
    requires d !in a
    ensures SplitOn(a + [d] + b, d) == [a] + SplitOn(b, d)
  {
    var s := a + [d] + b;
    var i := IndexOf(s, d);
    assert s[|a|] == d;
    assert forall k | 0 <= k < |a| :: s[k] == a[k] && a[k] != d;
    assert i == |a|;
    assert s[..i] == a;
    assert s[i + 1..] == b;
  }

  /** `s.replace(/a/g, b)` for single characters. */
  function ReplaceChar(s: string, a: char, b: char): (r: string)
    ensures |r| == |s|
    ensures forall k | 0 <= k < |s| :: r[k] == (if s[k] == a then b else s[k])
  {
    seq(|s|, k requires 0 <= k < |s| => if s[k] == a then b else s[k])
  }

  /** Length of the run of white space that starts `s`. */
  function LeadingSpaces(s: string): (n: nat)
    ensures n <= |s|
    ensures forall k | 0 <= k < n :: IsSpace(s[k])
    ensures n == |s| || !IsSpace(s[n])
    decreases |s|
  {
    if |s| > 0 && IsSpace(s[0]) then 1 + LeadingSpaces(s[1..]) else 0
  }

  /** Where the first run of two or more white-space characters begins, or
      `|s|` when there is none. */
  function DoubleSpaceAt(s: string): (i: nat)
    ensures i <= |s|
    ensures i < |s| ==> SpacePairAt(s, i)
    ensures forall k | 0 <= k < i :: !SpacePairAt(s, k)
    decreases |s|
  {
    if |s| < 2 then |s|
    else if IsSpace(s[0]) && IsSpace(s[1]) then 0
    else
      assert forall k | 1 <= k <= DoubleSpaceAt(s[1..]) :: SpacePairAt(s, k) == SpacePairAt(s[1..], k - 1);
      1 + DoubleSpaceAt(s[1..])
  }

  /** No two neighbouring white-space characters. */
  predicate NoDoubleSpace(s: string) {
    forall k | 0 <= k < |s| :: !SpacePairAt(s, k)
  }

  /** White space at `k` and again at `k + 1`. */
  predicate SpacePairAt(s: string, k: int) {
    0 <= k && k + 1 < |s| && IsSpace(s[k]) && IsSpace(s[k + 1])
  }

  /** Where the first run of white space that `DoubleSpaceAt` finds ends. */
  function RunEnd(s: string): (j: nat)
    requires DoubleSpaceAt(s) < |s|
    ensures DoubleSpaceAt(s) + 2 <= j <= |s|
    ensures j == |s| || !IsSpace(s[j])
  {
    assert forall k | 0 <= k < |s| - DoubleSpaceAt(s) :: s[DoubleSpaceAt(s)..][k] == s[DoubleSpaceAt(s) + k];
    DoubleSpaceAt(s) + LeadingSpaces(s[DoubleSpaceAt(s)..])
  }

  /** `s.split(/\s{2,}/)`: the pieces between maximal runs of at least two
      white-space characters; a single space stays inside its piece. */
  function SplitOnSpaceRuns(s: string): (r: seq<string>)
    ensures |r| >= 1
    ensures forall k | 0 <= k < |r| :: NoDoubleSpace(r[k])
    ensures NoDoubleSpace(s) ==> r == [s]
    decreases |s|
  {
    if DoubleSpaceAt(s) == |s| then
      [s]
    else
      assert forall k | 0 <= k < DoubleSpaceAt(s) :: SpacePairAt(s[..DoubleSpaceAt(s)], k) ==> SpacePairAt(s, k);
      [s[..DoubleSpaceAt(s)]] + SplitOnSpaceRuns(s[RunEnd(s)..])
  }

  /** The runs `SplitOnSpaceRuns` cuts at, in order. */
  function SpaceRunsOf(s: string): (runs: seq<string>)
    decreases |s|
  {
    if DoubleSpaceAt(s) == |s| then []
    else [s[DoubleSpaceAt(s)..RunEnd(s)]] + SpaceRunsOf(s[RunEnd(s)..])
  }

  predicate AllSpace(s: string) {
    forall k | 0 <= k < |s| :: IsSpace(s[k])
  }

  /** Each run cut out is two or more characters of white space. */
  lemma {:induction false} RunsAreSpace(s: string, k: nat)
    requires k < |SpaceRunsOf(s)|
    ensures |SpaceRunsOf(s)[k]| >= 2 && AllSpace(SpaceRunsOf(s)[k])
    decreases |s|
  {
    var i, j := DoubleSpaceAt(s), RunEnd(s);
    var run, rest := s[i..j], SpaceRunsOf(s[j..]);
    assert SpaceRunsOf(s) == [run] + rest;
    ConsIndex(run, rest, k);
    if k == 0 {
      FirstRunIsSpace(s);
    } else {
      RunsAreSpace(s[j..], k - 1);
    }
  }

  lemma FirstRunIsSpace(s: string)
    requires DoubleSpaceAt(s) < |s|
    ensures AllSpace(s[DoubleSpaceAt(s)..RunEnd(s)])
  {
    var i, run := DoubleSpaceAt(s), s[DoubleSpaceAt(s)..RunEnd(s)];
    forall m | 0 <= m < |run| ensures IsSpace(run[m]) {
      assert run[m] == s[i..][m];
    }
  }

  lemma ConsIndex<T>(x: T, xs: seq<T>, k: nat)
    requires k <= |xs|
    ensures ([x] + xs)[k] == if k == 0 then x else xs[k - 1]
  {
  }

  /** The pieces put back together with the runs between them. */
  function Interleave(pieces: seq<string>, runs: seq<string>): string
    requires |pieces| == |runs| + 1
    decreases |runs|
  {
    if |runs| == 0 then pieces[0] else pieces[0] + runs[0] + Interleave(pieces[1..], runs[1..])
  }

  lemma InterleaveCons(p: string, pieces: seq<string>, run: string, runs: seq<string>)
    requires |pieces| == |runs| + 1
    ensures Interleave([p] + pieces, [run] + runs) == p + run + Interleave(pieces, runs)
  {
    assert ([p] + pieces)[1..] == pieces && ([run] + runs)[1..] == runs;
  }

  lemma ThreeSlices<T>(s: seq<T>, i: nat, j: nat)
    requires i <= j <= |s|
    ensures s[..i] + s[i..j] + s[j..] == s
  {
    assert s[..i] + s[i..j] == s[..j];
  }

  /** Splitting loses nothing: the pieces, with the runs cut out between
      them, spell the text again. */
  lemma {:induction false} SplitOnSpaceRunsRebuilds(s: string)
    ensures |SplitOnSpaceRuns(s)| == |SpaceRunsOf(s)| + 1
    ensures Interleave(SplitOnSpaceRuns(s), SpaceRunsOf(s)) == s
    decreases |s|
  {
    if DoubleSpaceAt(s) < |s| {
      var i, j := DoubleSpaceAt(s), RunEnd(s);
      var pieces, runs := SplitOnSpaceRuns(s[j..]), SpaceRunsOf(s[j..]);
      SplitOnSpaceRunsRebuilds(s[j..]);
      assert SplitOnSpaceRuns(s) == [s[..i]] + pieces;
      assert SpaceRunsOf(s) == [s[i..j]] + runs;
      InterleaveCons(s[..i], pieces, s[i..j], runs);
      ThreeSlices(s, i, j);
    }
  }

  /** The character before the first double space is not white space. */
  lemma BeforeFirstRun(s: string)
    requires 0 < DoubleSpaceAt(s) < |s|
    ensures !IsSpace(s[DoubleSpaceAt(s) - 1])
  {
    assert !SpacePairAt(s, DoubleSpaceAt(s) - 1);
  }

  /** The cuts are maximal: a piece before a run does not end in white
      space ... */
  lemma {:induction false} PieceEndsBeforeRun(s: string, k: nat)
    requires k + 1 < |SplitOnSpaceRuns(s)|
    ensures var p := SplitOnSpaceRuns(s)[k];
            p == "" || !IsSpace(p[|p| - 1])
    decreases |s|
  {
    var i, j := DoubleSpaceAt(s), RunEnd(s);
    var first, rest := s[..i], SplitOnSpaceRuns(s[j..]);
    assert SplitOnSpaceRuns(s) == [first] + rest;
    ConsIndex(first, rest, k);
    if k == 0 && i > 0 {
      BeforeFirstRun(s);
      assert first[i - 1] == s[i - 1];
    } else if k > 0 {
      PieceEndsBeforeRun(s[j..], k - 1);
    }
  }

  /** ... and a piece after a run does not start with white space. */
  lemma {:induction false} PieceStartsAfterRun(s: string, k: nat)
    requires 0 < k < |SplitOnSpaceRuns(s)|
    ensures var p := SplitOnSpaceRuns(s)[k];
            p == "" || !IsSpace(p[0])
    decreases |s|
  {
    var i, j := DoubleSpaceAt(s), RunEnd(s);
    var first, rest := s[..i], SplitOnSpaceRuns(s[j..]);
    assert SplitOnSpaceRuns(s) == [first] + rest;
    ConsIndex(first, rest, k);
    if k == 1 {
      assert rest[0] != "" ==> rest[0][0] == s[j..][0] == s[j];
    } else {
      PieceStartsAfterRun(s[j..], k - 1);
    }
  }
}
