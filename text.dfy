/** The few .NET string operations the synchronisation code relies on, over `string` = `seq<char>`. */
module Text {
  import opened Wrappers

  /** `char.IsWhiteSpace`: the Unicode space separators, the line and paragraph separators,
      U+0009..U+000D and U+0085. */
  predicate IsWhiteSpace(c: char) {
    || c == ' '
    || ('\t' <= c <= '\r')
    || c == '\U{85}'
    || c == '\U{A0}'
    || c == '\U{1680}'
    || ('\U{2000}' <= c <= '\U{200A}')
    || c == '\U{2028}'
    || c == '\U{2029}'
    || c == '\U{202F}'
    || c == '\U{205F}'
    || c == '\U{3000}'
  }

  predicate Blank(s: string) {
    forall i :: 0 <= i < |s| ==> IsWhiteSpace(s[i])
  }

  /** `string.IsNullOrWhiteSpace`; `None` stands for a null reference. */
  predicate IsNullOrWhiteSpace(s: Option<string>) {
    s.None? || Blank(s.value)
  }

  /** Number of leading characters satisfying `p`. */
  function LeadingCount(s: string, p: char -> bool): (i: nat)
    ensures i <= |s|
    ensures forall k :: 0 <= k < i ==> p(s[k])
    ensures i < |s| ==> !p(s[i])
  {
    if s != [] && p(s[0]) then 1 + LeadingCount(s[1..], p) else 0
  }

  /** Number of trailing characters satisfying `p`. */
  function TrailingCount(s: string, p: char -> bool): (n: nat)
    ensures n <= |s|
    ensures forall k :: |s| - n <= k < |s| ==> p(s[k])
    ensures n < |s| ==> !p(s[|s| - n - 1])
  {
    if s != [] && p(s[|s| - 1]) then 1 + TrailingCount(s[..|s| - 1], p) else 0
  }

  /** `string.Trim(chars)`: removes every leading and trailing character satisfying `p`. */
  function TrimBy(s: string, p: char -> bool): (r: string)
    ensures var i := LeadingCount(s, p);
      && i + |r| <= |s|
      && r == s[i..i + |r|]
      && (forall k :: i + |r| <= k < |s| ==> p(s[k]))
    ensures r == [] || (!p(r[0]) && !p(r[|r| - 1]))
    ensures r == [] <==> forall k :: 0 <= k < |s| ==> p(s[k])
  {
    var i := LeadingCount(s, p);
    var t := s[i..];
    var n := TrailingCount(t, p);
    assert forall k :: i + |t| - n <= k < |s| ==> s[k] == t[k - i];
    t[..|t| - n]
  }

  /** `string.Trim()`. */
  function Trim(s: string): string {
    TrimBy(s, IsWhiteSpace)
  }

  lemma TrimByIdempotent(s: string, p: char -> bool)
    ensures TrimBy(TrimBy(s, p), p) == TrimBy(s, p)
  {
    var r := TrimBy(s, p);
    if r != [] {
      assert LeadingCount(r, p) == 0;
      assert TrailingCount(r, p) == 0;
    }
  }

  /** No white space at either end: what `Trim()` leaves. */
  predicate Unpadded(s: string) {
    s == [] || (!IsWhiteSpace(s[0]) && !IsWhiteSpace(s[|s| - 1]))
  }

  /** `Trim()` leaves no white space at either end, and leaves a string without any unchanged. */
  lemma TrimUnpadded(s: string)
    ensures Unpadded(Trim(s))
    ensures Unpadded(s) ==> Trim(s) == s
  {
    if Unpadded(s) && s != [] {
      assert LeadingCount(s, IsWhiteSpace) == 0;
      assert TrailingCount(s, IsWhiteSpace) == 0;
    }
  }

  predicate IsPrefix(p: string, s: string) {
    |p| <= |s| && s[..|p|] == p
  }

  /** `sub` occurs in `s` starting at index `i`. */
  predicate OccursAt(s: string, sub: string, i: nat) {
    i + |sub| <= |s| && s[i..i + |sub|] == sub
  }

  /** `string.Contains(string)` with ordinal comparison. */
  function Contains(s: string, sub: string): (b: bool)
    ensures b <==> exists i: nat :: OccursAt(s, sub, i)
  {
    if IsPrefix(sub, s) then
      assert OccursAt(s, sub, 0);
      true
    else if s == [] then
      false
    else
      var b := Contains(s[1..], sub);
      assert forall i: nat :: OccursAt(s[1..], sub, i) <==> OccursAt(s, sub, i + 1) by {
        forall i: nat ensures OccursAt(s[1..], sub, i) <==> OccursAt(s, sub, i + 1) {
          if i + 1 + |sub| <= |s| {
            assert s[1..][i..i + |sub|] == s[i + 1..i + 1 + |sub|];
          }
        }
      }
      assert !OccursAt(s, sub, 0);
      assert b ==> exists i: nat :: OccursAt(s, sub, i) by {
        if b {
          var i: nat :| OccursAt(s[1..], sub, i);
          assert OccursAt(s, sub, i + 1);
        }
      }
      assert (exists i: nat :: OccursAt(s, sub, i)) ==> b by {
        if exists i: nat :: OccursAt(s, sub, i) {
          var i: nat :| OccursAt(s, sub, i);
          assert i != 0;
          assert OccursAt(s[1..], sub, i - 1);
        }
      }
      b
  }

  function ToUpperAscii(c: char): char {
    if 'a' <= c <= 'z' then (c as int - 32) as char else c
  }

  function ToLowerAscii(c: char): char {
    if 'A' <= c <= 'Z' then (c as int + 32) as char else c
  }

  function UpperAscii(s: string): (r: string)
    ensures |r| == |s| && forall i :: 0 <= i < |s| ==> r[i] == ToUpperAscii(s[i])
  {
    if s == [] then [] else [ToUpperAscii(s[0])] + UpperAscii(s[1..])
  }

  function LowerAscii(s: string): (r: string)
    ensures |r| == |s| && forall i :: 0 <= i < |s| ==> r[i] == ToLowerAscii(s[i])
  {
    if s == [] then [] else [ToLowerAscii(s[0])] + LowerAscii(s[1..])
  }

  /** `string.Contains(sub, StringComparison.OrdinalIgnoreCase)`, case-folding ASCII letters. */
  predicate ContainsIgnoreCase(s: string, sub: string) {
    Contains(UpperAscii(s), UpperAscii(sub))
  }

  /** `string.Replace(char, char)`. */
  function ReplaceChar(s: string, a: char, b: char): (r: string)
    ensures |r| == |s|
    ensures forall i :: 0 <= i < |s| ==> r[i] == if s[i] == a then b else s[i]
  {
    if s == [] then [] else [if s[0] == a then b else s[0]] + ReplaceChar(s[1..], a, b)
  }

  function Digit(d: nat): char
    requires d < 10
  {
    "0123456789"[d]
  }

  function NatToString(n: nat): string {
    if n < 10 then [Digit(n)] else NatToString(n / 10) + [Digit(n % 10)]
  }

  /** Decimal rendering of an integer, as C# string interpolation does. */
  function IntToString(i: int): string {
    if i < 0 then "-" + NatToString(-i) else NatToString(i)
  }

  // ---------- plain split on one character (`string.Split(char)`) and its inverse ----------

  /** `string.Split(sep)`: the pieces between occurrences of `sep`, always at least one. */
  function SplitOn(s: string, sep: char): (fs: seq<string>)
    ensures |fs| >= 1
  {
    if s == [] then [""]
    else
      var fs := SplitOn(s[..|s| - 1], sep);
      var c := s[|s| - 1];
      if c == sep then fs + [""] else fs[..|fs| - 1] + [fs[|fs| - 1] + [c]]
  }

  /** `string.Join(sep, fields)`. */
  function Join(fs: seq<string>, sep: char): string
    requires |fs| >= 1
  {
    if |fs| == 1 then fs[0] else Join(fs[..|fs| - 1], sep) + [sep] + fs[|fs| - 1]
  }

  function CountChar(s: string, c: char): nat {
    if s == [] then 0 else CountChar(s[..|s| - 1], c) + if s[|s| - 1] == c then 1 else 0
  }

  lemma JoinAppendChar(fs: seq<string>, sep: char, c: char)
    requires |fs| >= 1
    ensures Join(fs[..|fs| - 1] + [fs[|fs| - 1] + [c]], sep) == Join(fs, sep) + [c]
  {
    var gs := fs[..|fs| - 1] + [fs[|fs| - 1] + [c]];
    if |fs| > 1 {
      assert gs[..|gs| - 1] == fs[..|fs| - 1];
    }
  }

  /** Joining the pieces of a split gives back the line. */
  lemma {:induction false} JoinSplitOn(s: string, sep: char)
    ensures Join(SplitOn(s, sep), sep) == s
  {
    if s != [] {
      var init, c := s[..|s| - 1], s[|s| - 1];
      var fs := SplitOn(init, sep);
      JoinSplitOn(init, sep);
      SplitOnLast(s, sep);
      if c == sep {
        var gs := fs + [""];
        assert gs[..|gs| - 1] == fs;
        assert Join(gs, sep) == Join(fs, sep) + [sep] + "";
      } else {
        JoinAppendChar(fs, sep, c);
      }
      assert init + [c] == s;
    }
  }

  /** No piece of a split contains the separator, and there is one piece more than separators. */
  lemma {:induction false} SplitOnPieces(s: string, sep: char)
    ensures forall f :: f in SplitOn(s, sep) ==> sep !in f
    ensures |SplitOn(s, sep)| == 1 + CountChar(s, sep)
  {
    if s != [] {
      var fs := SplitOn(s[..|s| - 1], sep);
      var c := s[|s| - 1];
      SplitOnPieces(s[..|s| - 1], sep);
      SplitOnLast(s, sep);
      if c != sep {
        var last := fs[|fs| - 1];
        assert sep !in last by { assert last in fs; }
        assert sep !in last + [c];
        forall f | f in fs[..|fs| - 1] ensures sep !in f { assert f in fs; }
      }
    }
  }

  /** The split of a line is the split of all but its last character, with that character
      opening a new piece (a separator) or extending the last piece. */
  lemma SplitOnLast(s: string, sep: char)
    requires s != []
    ensures var fs := SplitOn(s[..|s| - 1], sep);
      SplitOn(s, sep) == if s[|s| - 1] == sep then fs + [""] else fs[..|fs| - 1] + [fs[|fs| - 1] + [s[|s| - 1]]]
  {
  }

  lemma {:induction false} SplitOnSnoc(a: string, sep: char, f: string)
    requires sep !in f
    ensures SplitOn(a + [sep] + f, sep) == SplitOn(a, sep) + [f]
    decreases |f|
  {
    var s := a + [sep] + f;
    if f == [] {
      assert s[..|s| - 1] == a;
      SplitOnLast(s, sep);
    } else {
      var f', c := f[..|f| - 1], f[|f| - 1];
      assert sep !in f' by {
        forall k | 0 <= k < |f'| ensures f'[k] != sep { assert f'[k] == f[k]; }
      }
      assert s[..|s| - 1] == a + [sep] + f';
      SplitOnSnoc(a, sep, f');
      var fs := SplitOn(a, sep) + [f'];
      SplitOnLast(s, sep);
      assert SplitOn(s, sep) == fs[..|fs| - 1] + [fs[|fs| - 1] + [c]];
      assert fs[..|fs| - 1] == SplitOn(a, sep);
      assert f' + [c] == f;
    }
  }

  lemma {:induction false} SplitOnNoSep(f: string, sep: char)
    requires sep !in f
    ensures SplitOn(f, sep) == [f]
    decreases |f|
  {
    if f != [] {
      var i, c := f[..|f| - 1], f[|f| - 1];
      assert sep !in i by {
        forall k | 0 <= k < |i| ensures i[k] != sep { assert i[k] == f[k]; }
      }
      SplitOnNoSep(i, sep);
      SplitOnLast(f, sep);
      assert SplitOn(f, sep) == [i + [c]];
      assert i + [c] == f;
    }
  }

  /** Splitting a join of separator-free pieces gives back the pieces. */
  lemma {:induction false} SplitOnJoin(fs: seq<string>, sep: char)
    requires |fs| >= 1
    requires forall f :: f in fs ==> sep !in f
    ensures SplitOn(Join(fs, sep), sep) == fs
  {
    if |fs| == 1 {
      SplitOnNoSep(fs[0], sep);
    } else {
      var init := fs[..|fs| - 1];
      SplitOnJoin(init, sep);
      SplitOnSnoc(Join(init, sep), sep, fs[|fs| - 1]);
      assert init + [fs[|fs| - 1]] == fs;
    }
  }
}
