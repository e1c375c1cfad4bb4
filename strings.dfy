/**
 * The string primitives the modelled routines rely on, written out with the
 * semantics of Python's `str` and JavaScript's `String` methods: trimming,
 * ASCII lower-casing, prefix tests, splitting and joining on one character,
 * replacing every occurrence of a pattern, and JavaScript's `parseInt`.
 */
module Strings {
  import opened Optional

  /** The whitespace that `str.strip()` and `String.prototype.trim()` remove (ASCII part). */
  predicate IsSpace(c: char) {
    c == ' ' || c == '\t' || c == '\n' || c == '\r' || c == '\U{B}' || c == '\U{C}'
  }

  /** Every character is whitespace (so the string is falsy once stripped). */
  predicate IsBlank(s: string) {
    forall i :: 0 <= i < |s| ==> IsSpace(s[i])
  }

  /** The number of whitespace characters at the start. */
  function LeadingSpaces(s: string): (n: nat)
    ensures n <= |s|
    ensures forall k :: 0 <= k < n ==> IsSpace(s[k])
    ensures n == |s| || !IsSpace(s[n])
  {
    if s != [] && IsSpace(s[0]) then 1 + LeadingSpaces(s[1..]) else 0
  }

  /** The number of whitespace characters at the end. */
  function TrailingSpaces(s: string): (n: nat)
    ensures n <= |s|
    ensures forall k :: |s| - n <= k < |s| ==> IsSpace(s[k])
    ensures n == |s| || !IsSpace(s[|s| - 1 - n])
  {
    if s != [] && IsSpace(s[|s| - 1]) then 1 + TrailingSpaces(s[..|s| - 1]) else 0
  }

  /** Drops leading whitespace (`trimStart`). */
  function TrimStart(s: string): string {
    s[LeadingSpaces(s)..]
  }

  /** Drops trailing whitespace (`trimEnd`). */
  function TrimEnd(s: string): string {
    s[..|s| - TrailingSpaces(s)]
  }

  /** `s.strip()` / `s.trim()`: whitespace removed at both ends. */
  function Trim(s: string): (r: string)
    ensures r == [] || (!IsSpace(r[0]) && !IsSpace(r[|r| - 1]))
  {
    TrimEnd(TrimStart(s))
  }

  /** What `Trim` drops at the start is whitespace. */
  lemma LeadingPartBlank(s: string)
    ensures IsBlank(s[..LeadingSpaces(s)])
  {
    var i := LeadingSpaces(s);
    forall k | 0 <= k < i ensures IsSpace(s[..i][k]) {
      assert s[..i][k] == s[k];
    }
  }

  /** What `Trim` drops at the end is whitespace. */
  lemma TrailingPartBlank(s: string)
    ensures var j := LeadingSpaces(s) + |Trim(s)|; j <= |s| && IsBlank(s[j..])
  {
    var i, t := LeadingSpaces(s), TrimStart(s);
    var r := TrimEnd(t);
    assert |r| == |t| - TrailingSpaces(t);
    var tail := s[i + |r|..];
    forall k | 0 <= k < |tail| ensures IsSpace(tail[k]) {
      assert tail[k] == t[|r| + k];
    }
  }

  /** `Trim(s)` is what lies between the whitespace at the start and the whitespace at the end of `s`. */
  lemma TrimIsMiddle(s: string)
    ensures var i, j := LeadingSpaces(s), LeadingSpaces(s) + |Trim(s)|;
      && j <= |s| && Trim(s) == s[i..j]
      && IsBlank(s[..i]) && IsBlank(s[j..])
  {
    LeadingPartBlank(s);
    TrailingPartBlank(s);
  }

  /** A character that is not whitespace survives trimming, at its place shifted by the leading whitespace. */
  lemma NonSpaceKept(s: string, k: nat)
    requires k < |s| && !IsSpace(s[k])
    ensures var i, r := LeadingSpaces(s), Trim(s); i <= k < i + |r| && r[k - i] == s[k]
  {
    var i, t := LeadingSpaces(s), TrimStart(s);
    assert t[k - i] == s[k];
    assert k - i < |t| - TrailingSpaces(t);
  }

  /** Whitespace in front of a text that does not start with whitespace is all that is skipped. */
  lemma {:induction false} LeadingBlank(ws: string, rest: string)
    requires IsBlank(ws) && (rest == [] || !IsSpace(rest[0]))
    ensures LeadingSpaces(ws + rest) == |ws|
    decreases |ws|
  {
    if ws != [] {
      assert (ws + rest)[1..] == ws[1..] + rest;
      LeadingBlank(ws[1..], rest);
    } else {
      assert ws + rest == rest;
    }
  }

  /** Whitespace after a text that does not end with whitespace is all that is dropped. */
  lemma {:induction false} TrailingBlank(rest: string, ws: string)
    requires IsBlank(ws) && (rest == [] || !IsSpace(rest[|rest| - 1]))
    ensures TrailingSpaces(rest + ws) == |ws|
    decreases |ws|
  {
    if ws != [] {
      var w := ws[..|ws| - 1];
      assert (rest + ws)[..|rest + ws| - 1] == rest + w;
      TrailingBlank(rest, w);
    } else {
      assert rest + ws == rest;
    }
  }

  /** Trimming a text padded by whitespace gives the text, when it has none at its own ends. */
  lemma TrimPadded(ws1: string, core: string, ws2: string)
    requires IsBlank(ws1) && IsBlank(ws2)
    requires core != [] && !IsSpace(core[0]) && !IsSpace(core[|core| - 1])
    ensures Trim(ws1 + (core + ws2)) == core
  {
    LeadingBlank(ws1, core + ws2);
    assert TrimStart(ws1 + (core + ws2)) == core + ws2;
    TrailingBlank(core, ws2);
  }

  /** A string strips to nothing exactly when it is all whitespace. */
  lemma TrimEmptyIffBlank(s: string)
    ensures Trim(s) == [] <==> IsBlank(s)
  {
    var t := TrimStart(s);
    if t != [] {
      assert t[0] == s[LeadingSpaces(s)];
      assert TrailingSpaces(t) < |t|;
    }
  }

  /** Trimming twice is trimming once. */
  lemma TrimIdempotent(s: string)
    ensures Trim(Trim(s)) == Trim(s)
  {
    var r := Trim(s);
    if r != [] {
      TrimOfTrimmed(r);
    }
  }

  /** A string with no whitespace at either end is its own trimming. */
  lemma TrimOfTrimmed(s: string)
    requires s != [] && !IsSpace(s[0]) && !IsSpace(s[|s| - 1])
    ensures Trim(s) == s
  {
    assert LeadingSpaces(s) == 0;
    assert TrailingSpaces(s) == 0;
  }

  /** ASCII lower-casing of one character. */
  function LowerChar(c: char): (r: char)
    ensures 'A' <= c <= 'Z' ==> 'a' <= r <= 'z' && r as int - 'a' as int == c as int - 'A' as int
    ensures !('A' <= c <= 'Z') ==> r == c
  {
    if 'A' <= c <= 'Z' then (c as int - 'A' as int + 'a' as int) as char else c
  }

  /** `s.toLowerCase()` on ASCII letters. */
  function ToLower(s: string): (r: string)
    ensures |r| == |s|
    ensures forall i :: 0 <= i < |s| ==> r[i] == LowerChar(s[i])
  {
    seq(|s|, i requires 0 <= i < |s| => LowerChar(s[i]))
  }

  /** Lower-casing is idempotent: a lower-cased key stays as it is. */
  lemma ToLowerIdempotent(s: string)
    ensures ToLower(ToLower(s)) == ToLower(s)
  {
  }

  /** Lower-casing works character by character, so it distributes over concatenation. */
  lemma ToLowerConcat(a: string, b: string)
    ensures ToLower(a + b) == ToLower(a) + ToLower(b)
  {
  }

  /** `s.startswith(p)` / `s.startsWith(p)`. */
  predicate StartsWith(s: string, p: string) {
    |p| <= |s| && s[..|p|] == p
  }

  /** `p` occurs in `s` starting at index `i`. */
  predicate OccursAt(s: string, p: string, i: int) {
    0 <= i && i + |p| <= |s| && s[i..i + |p|] == p
  }

  /** `p in s`. */
  predicate Occurs(s: string, p: string) {
    exists i | 0 <= i <= |s| - |p| :: OccursAt(s, p, i)
  }

  /** The first index of `c` in `s`, or -1 (`s.indexOf(c)`). */
  function IndexOf(s: string, c: char): (k: int)
    ensures -1 <= k < |s|
    ensures k == -1 <==> c !in s
    ensures 0 <= k ==> s[k] == c && c !in s[..k]
  {
    if s == [] then -1
    else if s[0] == c then 0
    else
      var k := IndexOf(s[1..], c);
      assert s[1..][..k + 1] == s[1..k + 2] by { assert k + 2 <= |s| || k == -1; }
      if k == -1 then -1 else k + 1
  }

  /** `s.split(sep)` for a one-character separator, as JavaScript and Python do it. */
  function Split(s: string, sep: char): (parts: seq<string>)
    ensures |parts| >= 1
    decreases |s|
  {
    var k := IndexOf(s, sep);
    if k < 0 then [s] else [s[..k]] + Split(s[k + 1..], sep)
  }

  /** No piece of `parts` holds the separator. */
  predicate PiecesFree(parts: seq<string>, sep: char) {
    forall i :: 0 <= i < |parts| ==> sep !in parts[i]
  }

  /** Two lists of separator-free pieces concatenate to one. */
  lemma PiecesFreeConcat(x: seq<string>, y: seq<string>, sep: char)
    requires PiecesFree(x, sep) && PiecesFree(y, sep)
    ensures PiecesFree(x + y, sep)
  {
    assert forall i :: |x| <= i < |x + y| ==> (x + y)[i] == y[i - |x|];
  }

  /** No piece of a split holds the separator. */
  lemma {:induction false} SplitPiecesFree(s: string, sep: char)
    ensures PiecesFree(Split(s, sep), sep)
    decreases |s|
  {
    if sep in s {
      SplitAtFirst(s, sep);
      var k := IndexOf(s, sep);
      var rest := Split(s[k + 1..], sep);
      SplitPiecesFree(s[k + 1..], sep);
      assert forall i :: 1 <= i <= |rest| ==> ([s[..k]] + rest)[i] == rest[i - 1];
    } else {
      SplitAbsent(s, sep);
    }
  }

  /** A text with two separators splits into at least three pieces. */
  lemma SplitTwoSeparators(s: string, sep: char)
    requires var k := IndexOf(s, sep); k >= 0 && sep in s[k + 1..]
    ensures |Split(s, sep)| >= 3
  {
    var k := IndexOf(s, sep);
    SplitAtFirst(s, sep);
    SplitAtFirst(s[k + 1..], sep);
  }

  /** `sep.join(parts)` / `parts.join(sep)`. */
  function Join(parts: seq<string>, sep: char): string {
    if |parts| == 0 then ""
    else if |parts| == 1 then parts[0]
    else parts[0] + [sep] + Join(parts[1..], sep)
  }

  /** Joining a piece in front of a non-empty list puts one separator between. */
  lemma JoinCons(head: string, rest: seq<string>, sep: char)
    requires |rest| >= 1
    ensures Join([head] + rest, sep) == head + [sep] + Join(rest, sep)
  {
    assert ([head] + rest)[1..] == rest;
  }

  /** A split at the first separator: the text before it, then the split of the rest. */
  lemma SplitAtFirst(s: string, sep: char)
    requires sep in s
    ensures 0 <= IndexOf(s, sep) < |s|
    ensures Split(s, sep) == [s[..IndexOf(s, sep)]] + Split(s[IndexOf(s, sep) + 1..], sep)
  {
  }

  /** A string is the text before an index, the character there, and the text after. */
  lemma AroundIndex(s: string, k: nat)
    requires k < |s|
    ensures s == s[..k] + [s[k]] + s[k + 1..]
  {
    assert s == s[..k] + s[k..];
    assert s[k..] == [s[k]] + s[k + 1..];
  }

  /** Joining the pieces of a split restores the string. */
  lemma {:induction false} JoinSplit(s: string, sep: char)
    ensures Join(Split(s, sep), sep) == s
    decreases |s|
  {
    if sep in s {
      SplitAtFirst(s, sep);
      var k := IndexOf(s, sep);
      AroundIndex(s, k);
      var tail := s[k + 1..];
      JoinSplit(tail, sep);
      JoinCons(s[..k], Split(tail, sep), sep);
    } else {
      assert Split(s, sep) == [s];
    }
  }

  /** The first separator after a separator-free text is right after it. */
  lemma {:induction false} IndexAfterFree(a: string, b: string, sep: char)
    requires sep !in a
    ensures IndexOf(a + [sep] + b, sep) == |a|
  {
    if a != [] {
      assert (a + [sep] + b)[1..] == a[1..] + [sep] + b;
      IndexAfterFree(a[1..], b, sep);
    }
  }

  /** Splitting `a`, a separator, then `b`, with `a` separator-free, gives `a` and the split of `b`. */
  lemma SplitAroundFirst(a: string, b: string, sep: char)
    requires sep !in a
    ensures Split(a + [sep] + b, sep) == [a] + Split(b, sep)
  {
    var s := a + [sep] + b;
    IndexAfterFree(a, b, sep);
    assert s[|a|] == sep;
    SplitAtFirst(s, sep);
    assert s[..|a|] == a;
    assert s[|a| + 1..] == b;
  }

  /** Splitting a join of separator-free pieces gives the pieces back. */
  lemma {:induction false} SplitJoin(parts: seq<string>, sep: char)
    requires |parts| >= 1
    requires PiecesFree(parts, sep)
    ensures Split(Join(parts, sep), sep) == parts
  {
    if |parts| > 1 {
      var rest := parts[1..];
      assert sep !in parts[0];
      assert PiecesFree(rest, sep) by {
        assert forall i :: 0 <= i < |rest| ==> rest[i] == parts[i + 1];
      }
      SplitAroundFirst(parts[0], Join(rest, sep), sep);
      SplitJoin(rest, sep);
      assert parts == [parts[0]] + rest;
    } else {
      SplitAbsent(parts[0], sep);
    }
  }

  /** A text without the separator splits into itself alone. */
  lemma SplitAbsent(s: string, sep: char)
    requires sep !in s
    ensures Split(s, sep) == [s]
  {
  }

  /** The first piece of a split is the text before the first separator (all of it when there is none). */
  lemma SplitFirst(s: string, sep: char)
    ensures Split(s, sep)[0] == if sep in s then s[..IndexOf(s, sep)] else s
  {
  }

  /** Joining two non-empty lists joins their joins with one more separator. */
  lemma {:induction false} JoinConcat(x: seq<string>, y: seq<string>, sep: char)
    requires |x| >= 1 && |y| >= 1
    ensures Join(x + y, sep) == Join(x, sep) + [sep] + Join(y, sep)
  {
    if |x| > 1 {
      assert (x + y)[1..] == x[1..] + y;
      JoinConcat(x[1..], y, sep);
    } else {
      assert (x + y)[1..] == y;
    }
  }

  /** Splitting around one separator splits each side separately. */
  lemma SplitConcat(a: string, b: string, sep: char)
    ensures Split(a + [sep] + b, sep) == Split(a, sep) + Split(b, sep)
  {
    var x, y := Split(a, sep), Split(b, sep);
    JoinSplit(a, sep);
    JoinSplit(b, sep);
    JoinConcat(x, y, sep);
    SplitPiecesFree(a, sep);
    SplitPiecesFree(b, sep);
    PiecesFreeConcat(x, y, sep);
    SplitJoin(x + y, sep);
  }

  /** The pieces after the first one, re-joined, are the text after the first separator. */
  lemma RestAfterFirstSeparator(s: string, sep: char)
    requires sep in s
    ensures Join(Split(s, sep)[1..], sep) == s[IndexOf(s, sep) + 1..]
  {
    var k := IndexOf(s, sep);
    var head, tail := s[..k], s[k + 1..];
    AroundIndex(s, k);
    SplitAroundFirst(head, tail, sep);
    assert ([head] + Split(tail, sep))[1..] == Split(tail, sep);
    JoinSplit(tail, sep);
  }

  /**
   * Python's `s.replace(pat, rep)`: every non-overlapping occurrence of
   * `pat`, scanning left to right, is replaced by `rep`.
   */
  function ReplaceAll(s: string, pat: string, rep: string): string
    requires pat != []
    decreases |s|
  {
    if |s| < |pat| then s
    else if s[..|pat|] == pat then rep + ReplaceAll(s[|pat|..], pat, rep)
    else [s[0]] + ReplaceAll(s[1..], pat, rep)
  }

  /** Text that does not contain the pattern is left unchanged. */
  lemma {:induction false} ReplaceAbsent(s: string, pat: string, rep: string)
    requires pat != []
    requires !Occurs(s, pat)
    ensures ReplaceAll(s, pat, rep) == s
    decreases |s|
  {
    if |s| >= |pat| {
      assert !OccursAt(s, pat, 0);
      assert !Occurs(s[1..], pat) by {
        forall i | OccursAt(s[1..], pat, i) ensures false {
          assert s[1..][i..i + |pat|] == s[i + 1..i + 1 + |pat|];
          assert OccursAt(s, pat, i + 1);
        }
      }
      ReplaceAbsent(s[1..], pat, rep);
    }
  }

  /** Where the pattern does not start, the first character is kept and the scan moves on by one. */
  lemma ReplaceSkip(s: string, pat: string, rep: string)
    requires pat != [] && s != []
    requires !OccursAt(s, pat, 0)
    ensures ReplaceAll(s, pat, rep) == [s[0]] + ReplaceAll(s[1..], pat, rep)
  {
    if |s| < |pat| {
      assert s == [s[0]] + s[1..];
    }
  }

  /** A text that starts with the pattern has its start replaced and the scan resumes after it. */
  lemma ReplaceAtStart(pat: string, b: string, rep: string)
    requires pat != []
    ensures ReplaceAll(pat + b, pat, rep) == rep + ReplaceAll(b, pat, rep)
  {
    var s := pat + b;
    assert s[..|pat|] == pat;
    assert s[|pat|..] == b;
  }

  /** No occurrence before the pattern in `a + pat + b` means none before it once `a` loses its first character. */
  lemma NoEarlierOccurrenceInTail(a: string, pat: string, b: string)
    requires a != []
    requires forall i :: 0 <= i < |a| ==> !OccursAt(a + pat + b, pat, i)
    ensures forall i :: 0 <= i < |a| - 1 ==> !OccursAt(a[1..] + pat + b, pat, i)
  {
    var s, t := a + pat + b, a[1..] + pat + b;
    assert s[1..] == t;
    forall i | 0 <= i < |a| - 1 ensures !OccursAt(t, pat, i) {
      assert !OccursAt(s, pat, i + 1);
      assert s[i + 1..i + 1 + |pat|] == t[i..i + |pat|];
    }
  }

  /**
   * The first occurrence is replaced and the scan resumes right after it,
   * so the occurrences in the rest are replaced too.
   */
  lemma {:induction false} ReplaceFirstOccurrence(a: string, pat: string, b: string, rep: string)
    requires pat != []
    requires forall i :: 0 <= i < |a| ==> !OccursAt(a + pat + b, pat, i)
    ensures ReplaceAll(a + pat + b, pat, rep) == ReplaceAll(a, pat, rep) + rep + ReplaceAll(b, pat, rep)
    decreases |a|
  {
    if a == [] {
      assert a + pat + b == pat + b;
      ReplaceAtStart(pat, b, rep);
    } else {
      var s, tail := a + pat + b, a[1..];
      assert !OccursAt(s, pat, 0);
      ReplaceSkip(s, pat, rep);
      assert s[1..] == tail + pat + b;
      NoEarlierOccurrenceInTail(a, pat, b);
      ReplaceFirstOccurrence(tail, pat, b, rep);
      NotAtStartOfPrefix(a, pat, b);
      ReplaceSkip(a, pat, rep);
      ConsAssociates(a[0], ReplaceAll(tail, pat, rep), rep, ReplaceAll(b, pat, rep));
    }
  }

  /** A text with no occurrence at its start has none at the start of its non-empty prefix. */
  lemma NotAtStartOfPrefix(a: string, pat: string, b: string)
    requires a != [] && !OccursAt(a + pat + b, pat, 0)
    ensures !OccursAt(a, pat, 0)
  {
    if |a| >= |pat| {
      assert a[..|pat|] == (a + pat + b)[..|pat|];
    }
  }

  /** A character in front of three pieces. */
  lemma ConsAssociates(c: char, x: string, y: string, z: string)
    ensures [c] + (x + y + z) == ([c] + x) + y + z
  {
  }

  /** Text in which the pattern's first character never appears holds no occurrence. */
  lemma AbsentWithoutFirstChar(s: string, pat: string)
    requires pat != [] && pat[0] !in s
    ensures !Occurs(s, pat)
    ensures forall t, i :: 0 <= i < |s| ==> !OccursAt(s + t, pat, i)
  {
  }

  /** One occurrence between texts that cannot start another is replaced, the rest kept. */
  lemma ReplaceSingle(before: string, pat: string, after: string, rep: string)
    requires pat != [] && pat[0] !in before && pat[0] !in after
    ensures ReplaceAll(before + pat + after, pat, rep) == before + rep + after
  {
    AbsentWithoutFirstChar(before, pat);
    AbsentWithoutFirstChar(after, pat);
    assert forall i :: 0 <= i < |before| ==> !OccursAt(before + (pat + after), pat, i);
    assert before + (pat + after) == before + pat + after;
    ReplaceFirstOccurrence(before, pat, after, rep);
    ReplaceAbsent(before, pat, rep);
    ReplaceAbsent(after, pat, rep);
  }

  /** Two occurrences around text that cannot start one are both replaced. */
  lemma ReplaceAroundMiddle(pat: string, middle: string, rep: string)
    requires pat != [] && pat[0] !in middle
    ensures ReplaceAll(pat + middle + pat, pat, rep) == rep + middle + rep
  {
    ReplaceSingle(middle, pat, [], rep);
    assert middle + pat + [] == middle + pat;
    ReplaceFirstOccurrence([], pat, middle + pat, rep);
    assert [] + pat + (middle + pat) == pat + middle + pat;
  }

  /** A decimal digit character. */
  predicate IsDigit(c: char) {
    '0' <= c <= '9'
  }

  /** The longest prefix of decimal digits. */
  function DigitPrefix(s: string): (d: string)
    ensures |d| <= |s| && d == s[..|d|]
    ensures forall i :: 0 <= i < |d| ==> IsDigit(d[i])
    ensures |d| == |s| || !IsDigit(s[|d|])
  {
    if s != [] && IsDigit(s[0]) then [s[0]] + DigitPrefix(s[1..]) else []
  }

  /** The value of a string of decimal digits. */
  function DigitsValue(d: string): (n: nat)
    requires forall i :: 0 <= i < |d| ==> IsDigit(d[i])
  {
    if d == [] then 0
    else
      var last := d[|d| - 1];
      assert IsDigit(last);
      DigitsValue(d[..|d| - 1]) * 10 + (last as int - '0' as int)
  }

  /** The decimal representation of a natural number, without sign or leading zeros. */
  function NatToString(n: nat): (s: string)
    ensures |s| >= 1
    ensures forall i :: 0 <= i < |s| ==> IsDigit(s[i])
  {
    var last := ('0' as int + n % 10) as char;
    if n < 10 then [last] else NatToString(n / 10) + [last]
  }

  /** Reading back a printed number gives the number. */
  lemma {:induction false} DigitsValueOfNatToString(n: nat)
    ensures DigitsValue(NatToString(n)) == n
  {
    var s := NatToString(n);
    if n >= 10 {
      assert s[..|s| - 1] == NatToString(n / 10);
      DigitsValueOfNatToString(n / 10);
    }
  }

  /**
   * JavaScript's `parseInt(s, 10)`: leading whitespace is skipped, an
   * optional sign is read, then the longest run of digits; anything after
   * it is ignored. `None` stands for `NaN` (no digit at all).
   */
  function ParseInt(s: string): (r: Option<int>)
    ensures r.Some? <==> (var t := TrimStart(s);
                          var u := if t != [] && (t[0] == '+' || t[0] == '-') then t[1..] else t;
                          u != [] && IsDigit(u[0]))
  {
    var t := TrimStart(s);
    var negative := t != [] && t[0] == '-';
    var u := if t != [] && (t[0] == '+' || t[0] == '-') then t[1..] else t;
    var d := DigitPrefix(u);
    if d == [] then None
    else
      var v: int := DigitsValue(d);
      Some(if negative then -v else v)
  }

  /** The optional sign in front of digits, as `parseInt` and `Number` read it. */
  predicate IsSign(sign: string) {
    |sign| == 0 || (|sign| == 1 && (sign[0] == '+' || sign[0] == '-'))
  }

  /** The value of digits worth `v` behind `sign`. */
  function Signed(sign: string, v: nat): int {
    if sign != [] && sign[0] == '-' then -(v as int) else v
  }

  /** Text that does not start with whitespace is its own `trimStart`. */
  lemma TrimStartUnpadded(u: string)
    requires u != [] && !IsSpace(u[0])
    ensures TrimStart(u) == u
  {
    assert LeadingSpaces(u) == 0;
  }

  /** `parseInt` of text that starts with the digits `d` and has no digit after them reads `d`. */
  lemma ParseIntOfDigitPrefix(s: string, d: string)
    requires d != [] && forall i :: 0 <= i < |d| ==> IsDigit(d[i])
    requires DigitPrefix(s) == d
    ensures ParseInt(s) == Some(DigitsValue(d))
  {
    assert s[0] == d[0];
    assert LeadingSpaces(s) == 0;
  }

  /** `parseInt` of a sign `c` followed by text whose digit prefix is `d`. */
  lemma ParseIntOfSignedPrefix(s: string, c: char, d: string)
    requires |s| >= 1 && s[0] == c && (c == '+' || c == '-')
    requires d != [] && forall i :: 0 <= i < |d| ==> IsDigit(d[i])
    requires DigitPrefix(s[1..]) == d
    ensures ParseInt(s) == Some(if c == '-' then -(DigitsValue(d) as int) else DigitsValue(d))
  {
    assert LeadingSpaces(s) == 0;
    assert TrimStart(s) == s;
  }

  /** Without leading whitespace, `parseInt` reads the sign and the digits and ignores the text after them. */
  lemma ParseIntUnpadded(sign: string, d: string, tail: string)
    requires IsSign(sign)
    requires d != [] && forall i :: 0 <= i < |d| ==> IsDigit(d[i])
    requires tail == [] || !IsDigit(tail[0])
    ensures ParseInt(sign + (d + tail)) == Some(Signed(sign, DigitsValue(d)))
  {
    DigitPrefixOfDigits(d, tail);
    var s := sign + (d + tail);
    if sign == [] {
      assert s == d + tail;
      ParseIntOfDigitPrefix(d + tail, d);
    } else {
      assert s[1..] == d + tail;
      ParseIntOfSignedPrefix(s, sign[0], d);
    }
  }

  /** `parseInt` skips leading whitespace. */
  lemma ParseIntSkipsBlank(ws: string, rest: string)
    requires IsBlank(ws) && rest != [] && !IsSpace(rest[0])
    ensures ParseInt(ws + rest) == ParseInt(rest)
  {
    LeadingBlank(ws, rest);
    assert TrimStart(ws + rest) == rest;
    TrimStartUnpadded(rest);
  }

  /** `parseInt` skips leading whitespace, reads a sign and the digits, and ignores the text after them. */
  lemma ParseIntValue(ws: string, sign: string, d: string, tail: string)
    requires IsBlank(ws) && IsSign(sign)
    requires d != [] && forall i :: 0 <= i < |d| ==> IsDigit(d[i])
    requires tail == [] || !IsDigit(tail[0])
    ensures ParseInt(ws + (sign + (d + tail))) == Some(Signed(sign, DigitsValue(d)))
  {
    var rest := sign + (d + tail);
    assert rest[0] == if sign == [] then d[0] else sign[0];
    ParseIntSkipsBlank(ws, rest);
    ParseIntUnpadded(sign, d, tail);
  }

  /** `parseInt` reads back what it would print, with any trailing text ignored. */
  lemma ParseIntOfNumeral(n: nat, tail: string)
    requires tail == [] || !IsDigit(tail[0])
    ensures ParseInt(NatToString(n) + tail) == Some(n)
  {
    var s := NatToString(n);
    var t := s + tail;
    assert t[0] == s[0] && IsDigit(t[0]);
    assert TrimStart(t) == t;
    DigitPrefixOfDigits(s, tail);
    assert DigitPrefix(t) == s;
    DigitsValueOfNatToString(n);
  }

  /** `parseInt` reads a decimal numeral back as the number it writes. */
  lemma ParseIntNumeral(n: nat)
    ensures ParseInt(NatToString(n)) == Some(n)
  {
    ParseIntOfNumeral(n, "");
    assert NatToString(n) + "" == NatToString(n);
  }

  /** The digit prefix of digits followed by a non-digit is those digits. */
  lemma {:induction false} DigitPrefixOfDigits(d: string, tail: string)
    requires forall i :: 0 <= i < |d| ==> IsDigit(d[i])
    requires tail == [] || !IsDigit(tail[0])
    ensures DigitPrefix(d + tail) == d
  {
    if d != [] {
      assert (d + tail)[1..] == d[1..] + tail;
      DigitPrefixOfDigits(d[1..], tail);
    } else {
      assert d + tail == tail;
    }
  }
}
