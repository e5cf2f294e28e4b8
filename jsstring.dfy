/**
 * The JavaScript string operations the application relies on, with the
 * semantics of the ECMAScript built-ins: `split` on a one-character
 * separator, `filter(Boolean)` on the pieces, `join`, `pop`,
 * `lastIndexOf`, `substring` (clamping and swapping its arguments),
 * `replace` with a string pattern (first occurrence only), `toLowerCase`
 * (ASCII letters), `trim` emptiness, `String(n)` and `parseInt`.
 * Strings are `seq<char>`, whose elements are Unicode scalar values;
 * JavaScript counts UTF-16 code units, which differ only outside the
 * Basic Multilingual Plane.
 */
module JsString {
  import opened Wrappers

  /** JavaScript truthiness of a string: only the empty string is falsy. */
  predicate Truthy(s: string) {
    s != ""
  }

  /** `s.startsWith(p)`. */
  predicate StartsWith(s: string, p: string) {
    p <= s
  }

  /** `s.endsWith(suffix)`. */
  predicate EndsWith(s: string, suffix: string) {
    |suffix| <= |s| && s[|s| - |suffix|..] == suffix
  }

  // ---------------------------------------------------------------------
  // split / join / filter(Boolean) / pop

  /** `s.split(sep)` for a one-character separator: never empty. */
  function Split(s: string, sep: char): (pieces: seq<string>)
    ensures |pieces| >= 1
    ensures forall i :: 0 <= i < |pieces| ==> sep !in pieces[i]
    decreases |s|
  {
    if |s| == 0 then [""]
    else
      var rest := Split(s[1..], sep);
      if s[0] == sep then [""] + rest
      else [[s[0]] + rest[0]] + rest[1..]
  }

  /** `pieces.join(sep)`. */
  function Join(pieces: seq<string>, sep: char): string
    decreases |pieces|
  {
    if |pieces| == 0 then ""
    else if |pieces| == 1 then pieces[0]
    else pieces[0] + [sep] + Join(pieces[1..], sep)
  }

  /** `pieces.filter(Boolean)`: drops the empty strings, keeps the order. */
  function FilterNonEmpty(pieces: seq<string>): (r: seq<string>)
    ensures |r| <= |pieces|
    ensures forall i :: 0 <= i < |r| ==> r[i] != ""
    ensures forall x :: x in r <==> x in pieces && x != ""
    decreases |pieces|
  {
    if |pieces| == 0 then []
    else if pieces[0] == "" then FilterNonEmpty(pieces[1..])
    else [pieces[0]] + FilterNonEmpty(pieces[1..])
  }

  /** `a.pop()` on a non-empty array: its last element. */
  function Last<T>(a: seq<T>): T
    requires |a| > 0
  {
    a[|a| - 1]
  }

  /** `s.split(sep).pop()`: the text after the last separator. */
  function AfterLast(s: string, sep: char): string {
    Last(Split(s, sep))
  }

  /** `s.split(sep).filter(Boolean).pop()`, which is `undefined` when every piece is empty. */
  function LastNonEmptyPiece(s: string, sep: char): (r: Option<string>)
    ensures r.Some? ==> r.value != "" && sep !in r.value
  {
    var parts := FilterNonEmpty(Split(s, sep));
    FilterNonEmptyPieces(Split(s, sep), sep);
    if |parts| == 0 then None else Some(Last(parts))
  }

  /** `filter(Boolean)` keeps only pieces it was given. */
  lemma FilterNonEmptyPieces(pieces: seq<string>, sep: char)
    requires forall i :: 0 <= i < |pieces| ==> sep !in pieces[i]
    ensures forall i :: 0 <= i < |FilterNonEmpty(pieces)| ==> sep !in FilterNonEmpty(pieces)[i]
  {
    forall i | 0 <= i < |FilterNonEmpty(pieces)|
      ensures sep !in FilterNonEmpty(pieces)[i]
    {
      var x := FilterNonEmpty(pieces)[i];
      assert x in FilterNonEmpty(pieces);
      var j :| 0 <= j < |pieces| && pieces[j] == x;
    }
  }

  lemma {:induction false} SplitJoin(s: string, sep: char)
    ensures Join(Split(s, sep), sep) == s
    decreases |s|
  {
    if |s| > 0 {
      var rest := Split(s[1..], sep);
      SplitJoin(s[1..], sep);
      if s[0] == sep {
        assert Split(s, sep) == [""] + rest;
        assert ([""] + rest)[1..] == rest;
      } else {
        var p := Split(s, sep);
        assert p == [[s[0]] + rest[0]] + rest[1..];
        if |rest| > 1 {
          assert p[1..] == rest[1..];
          assert Join(rest, sep) == rest[0] + [sep] + Join(rest[1..], sep);
        }
      }
    }
  }

  /** Joining two non-empty lists of pieces puts one separator between their joins. */
  lemma {:induction false} JoinConcat(a: seq<string>, b: seq<string>, sep: char)
    requires |a| >= 1 && |b| >= 1
    ensures Join(a + b, sep) == Join(a, sep) + [sep] + Join(b, sep)
    decreases |a|
  {
    if |a| > 1 {
      assert (a + b)[1..] == a[1..] + b;
      JoinConcat(a[1..], b, sep);
    } else {
      assert (a + b)[1..] == b;
    }
  }

  /** A join ends with its last piece. */
  lemma {:induction false} JoinEndsWithLast(pieces: seq<string>, sep: char)
    requires |pieces| >= 1
    ensures EndsWith(Join(pieces, sep), Last(pieces))
    decreases |pieces|
  {
    if |pieces| > 1 {
      JoinEndsWithLast(pieces[1..], sep);
      var tail := Join(pieces[1..], sep);
      var whole := pieces[0] + [sep] + tail;
      assert Last(pieces[1..]) == Last(pieces);
      assert whole[|whole| - |tail|..] == tail;
      assert whole[|whole| - |Last(pieces)|..] == tail[|tail| - |Last(pieces)|..];
    }
  }

  /** `s.split(sep).pop()` is a separator-free suffix of `s`. */
  lemma AfterLastIsSuffix(s: string, sep: char)
    ensures EndsWith(s, AfterLast(s, sep))
    ensures sep !in AfterLast(s, sep)
  {
    SplitJoin(s, sep);
    JoinEndsWithLast(Split(s, sep), sep);
  }

  /** What follows the last separator of `a + sep + b` is what follows the last one of `b`. */
  lemma {:induction false} AfterLastOfAppend(a: string, sep: char, b: string)
    ensures |Split(a + [sep] + b, sep)| >= 2
    ensures AfterLast(a + [sep] + b, sep) == AfterLast(b, sep)
    decreases |a|
  {
    var s := a + [sep] + b;
    if |a| == 0 {
      assert s[1..] == b;
    } else {
      assert s[1..] == a[1..] + [sep] + b;
      AfterLastOfAppend(a[1..], sep, b);
    }
  }

  /** `s.split(sep).pop()` is empty only for the empty string or one ending in `sep`. */
  lemma {:induction false} AfterLastEmpty(s: string, sep: char)
    ensures AfterLast(s, sep) == "" ==> s == "" || s[|s| - 1] == sep
    decreases |s|
  {
    if |s| > 0 {
      AfterLastEmpty(s[1..], sep);
      var rest := Split(s[1..], sep);
      if s[0] == sep {
        assert Split(s, sep) == [""] + rest;
        assert Last([""] + rest) == Last(rest);
      } else if |rest| > 1 {
        assert Split(s, sep) == [[s[0]] + rest[0]] + rest[1..];
        assert Last([[s[0]] + rest[0]] + rest[1..]) == Last(rest);
        assert s[1..] != "";
      }
    }
  }

  /** A string that starts with `b` after extending `a` makes `a` and `b` prefix-related. */
  lemma PrefixOfExtension(a: string, x: string, b: string)
    ensures StartsWith(a + x, b) ==> StartsWith(a, b) || StartsWith(b, a)
  {
    if StartsWith(a + x, b) {
      if |b| <= |a| {
        assert b == (a + x)[..|b|] == a[..|b|];
      } else {
        assert a == (a + x)[..|a|] == b[..|a|];
      }
    }
  }

  /** Splitting a separator-free string yields that string alone. */
  lemma {:induction false} SplitNoSeparator(s: string, sep: char)
    requires sep !in s
    ensures Split(s, sep) == [s]
    decreases |s|
  {
    if |s| > 0 {
      SplitNoSeparator(s[1..], sep);
      assert [s[0]] + s[1..] == s;
    }
  }

  /** Splitting `a + sep + b` with `a` separator-free gives `a` then the pieces of `b`. */
  lemma {:induction false} SplitAfterPiece(a: string, sep: char, b: string)
    requires sep !in a
    ensures Split(a + [sep] + b, sep) == [a] + Split(b, sep)
    decreases |a|
  {
    var s := a + [sep] + b;
    if |a| == 0 {
      assert s[1..] == b;
    } else {
      assert s[1..] == a[1..] + [sep] + b;
      SplitAfterPiece(a[1..], sep, b);
      assert [a[0]] + a[1..] == a;
    }
  }

  /** Joining separator-free pieces and splitting again gives the pieces back. */
  lemma {:induction false} JoinSplit(pieces: seq<string>, sep: char)
    requires |pieces| >= 1
    requires forall i :: 0 <= i < |pieces| ==> sep !in pieces[i]
    ensures Split(Join(pieces, sep), sep) == pieces
    decreases |pieces|
  {
    if |pieces| == 1 {
      SplitNoSeparator(pieces[0], sep);
    } else {
      JoinSplit(pieces[1..], sep);
      SplitAfterPiece(pieces[0], sep, Join(pieces[1..], sep));
      assert [pieces[0]] + pieces[1..] == pieces;
    }
  }

  lemma {:induction false} FilterNonEmptyKeepsNonEmpty(pieces: seq<string>)
    requires forall i :: 0 <= i < |pieces| ==> pieces[i] != ""
    ensures FilterNonEmpty(pieces) == pieces
    decreases |pieces|
  {
    if |pieces| > 0 {
      FilterNonEmptyKeepsNonEmpty(pieces[1..]);
      assert [pieces[0]] + pieces[1..] == pieces;
    }
  }

  /**
   * A list written with `join(sep)` and read back with
   * `split(sep).filter(Boolean)` is unchanged when every entry is non-empty
   * and free of the separator (the empty list being stored as `""`).
   */
  lemma JoinThenSplitNonEmpty(pieces: seq<string>, sep: char)
    requires |pieces| >= 1
    requires forall i :: 0 <= i < |pieces| ==> pieces[i] != "" && sep !in pieces[i]
    ensures FilterNonEmpty(Split(Join(pieces, sep), sep)) == pieces
  {
    JoinSplit(pieces, sep);
    FilterNonEmptyKeepsNonEmpty(pieces);
  }

  /** The pieces of `a + sep + b` are the pieces of `a` followed by those of `b`. */
  lemma {:induction false} SplitConcat(a: string, sep: char, b: string)
    ensures Split(a + [sep] + b, sep) == Split(a, sep) + Split(b, sep)
    decreases |a|
  {
    var s := a + [sep] + b;
    SplitStep(s, sep);
    if |a| == 0 {
      assert s[0] == sep && s[1..] == b;
    } else {
      assert s[0] == a[0] && s[1..] == a[1..] + [sep] + b;
      SplitConcat(a[1..], sep, b);
      SplitStep(a, sep);
    }
  }

  /** One step of the split recursion. */
  lemma SplitStep(s: string, sep: char)
    requires |s| > 0
    ensures var rest := Split(s[1..], sep);
      Split(s, sep) == if s[0] == sep then [""] + rest else [[s[0]] + rest[0]] + rest[1..]
  {
  }

  /** `filter(Boolean)` distributes over concatenation. */
  lemma {:induction false} FilterNonEmptyConcat(a: seq<string>, b: seq<string>)
    ensures FilterNonEmpty(a + b) == FilterNonEmpty(a) + FilterNonEmpty(b)
    decreases |a|
  {
    if |a| > 0 {
      assert (a + b)[1..] == a[1..] + b;
      FilterNonEmptyConcat(a[1..], b);
    } else {
      assert a + b == b;
    }
  }

  // ---------------------------------------------------------------------
  // lastIndexOf / substring / indexOf / replace

  /** `s.lastIndexOf(c)`: the index of the last `c`, or -1. */
  function LastIndexOf(s: string, c: char): (i: int)
    ensures -1 <= i < |s|
    ensures i >= 0 ==> s[i] == c
    ensures forall j :: i < j < |s| ==> s[j] != c
    decreases |s|
  {
    if |s| == 0 then -1
    else if s[|s| - 1] == c then |s| - 1
    else LastIndexOf(s[..|s| - 1], c)
  }

  /** Appending text without `c` leaves the last index of `c` where it was. */
  lemma {:induction false} LastIndexOfAppend(a: string, b: string, c: char)
    requires c !in b
    ensures LastIndexOf(a + b, c) == LastIndexOf(a, c)
    decreases |b|
  {
    if |b| > 0 {
      var s := a + b;
      assert s[..|s| - 1] == a + b[..|b| - 1];
      assert s[|s| - 1] == b[|b| - 1];
      LastIndexOfAppend(a, b[..|b| - 1], c);
    } else {
      assert a + b == a;
    }
  }

  /** A `substring` argument clamped to [0, len]. */
  function Clamp(i: int, len: nat): (r: nat)
    ensures r <= len
  {
    if i < 0 then 0 else if i > len then len else i
  }

  /** `s.substring(start, end)`: both ends clamped, swapped when start > end. */
  function Substring(s: string, start: int, end: int): (r: string)
    ensures |r| <= |s|
  {
    var a := Clamp(start, |s|);
    var b := Clamp(end, |s|);
    if a <= b then s[a..b] else s[b..a]
  }

  /** `s.substring(start)`. */
  function SubstringFrom(s: string, start: int): (r: string)
    ensures |r| <= |s|
  {
    Substring(s, start, |s|)
  }

  /** The first index at or after `from` where `pat` occurs in `s`, or -1. */
  function IndexOfFrom(s: string, pat: string, from: nat): (i: int)
    ensures i == -1 || (from <= i && i + |pat| <= |s| && s[i..i + |pat|] == pat)
    decreases |s| - from
  {
    if from + |pat| > |s| then -1
    else if s[from..from + |pat|] == pat then from
    else IndexOfFrom(s, pat, from + 1)
  }

  /** `s.indexOf(pat)`. */
  function IndexOf(s: string, pat: string): int {
    IndexOfFrom(s, pat, 0)
  }

  /**
   * Replacement of the first occurrence of `pat` by `rep` inserted
   * literally. This is what `s.replace(pat, rep)` does when `rep` holds no
   * `$`; `ReplaceFirstJs` expands the `$` patterns as well.
   */
  function ReplaceFirst(s: string, pat: string, rep: string): string {
    var i := IndexOf(s, pat);
    if i < 0 then s else s[..i] + rep + s[i + |pat|..]
  }

  /** On a string that starts with the pattern, `replace` swaps that prefix. */
  lemma ReplacePrefix(s: string, pat: string, rep: string)
    requires StartsWith(s, pat)
    ensures ReplaceFirst(s, pat, rep) == rep + s[|pat|..]
  {
    assert s[0..|pat|] == pat;
  }

  /**
   * The text `replace` inserts for a match of a string pattern (the
   * GetSubstitution operation of ECMAScript): `$$` is `$`, `$&` the
   * matched text, `` $` `` the text before the match and `$'` the text
   * after it. A string pattern has no capture groups, so every other `$`
   * stays as written.
   */
  function Substitution(rep: string, matched: string, before: string, after: string): string
    decreases |rep|
  {
    if |rep| == 0 then ""
    else if rep[0] == '$' && |rep| >= 2 && rep[1] == '$' then "$" + Substitution(rep[2..], matched, before, after)
    else if rep[0] == '$' && |rep| >= 2 && rep[1] == '&' then matched + Substitution(rep[2..], matched, before, after)
    else if rep[0] == '$' && |rep| >= 2 && rep[1] == '`' then before + Substitution(rep[2..], matched, before, after)
    else if rep[0] == '$' && |rep| >= 2 && rep[1] == '\'' then after + Substitution(rep[2..], matched, before, after)
    else [rep[0]] + Substitution(rep[1..], matched, before, after)
  }

  /** `s.replace(pat, rep)` with a string pattern: the first occurrence, with `$` patterns expanded. */
  function ReplaceFirstJs(s: string, pat: string, rep: string): (r: string)
    ensures IndexOf(s, pat) < 0 ==> r == s
  {
    var i := IndexOf(s, pat);
    if i < 0 then s else s[..i] + Substitution(rep, pat, s[..i], s[i + |pat|..]) + s[i + |pat|..]
  }

  /** A replacement without `$` is inserted as written. */
  lemma {:induction false} SubstitutionPlain(rep: string, matched: string, before: string, after: string)
    requires '$' !in rep
    ensures Substitution(rep, matched, before, after) == rep
    decreases |rep|
  {
    if |rep| > 0 {
      assert rep[1..] == rep[|[rep[0]]|..] && rep == [rep[0]] + rep[1..];
      assert '$' !in rep[1..];
      SubstitutionPlain(rep[1..], matched, before, after);
    }
  }

  /** With no `$` in the replacement, `replace` is the literal replacement of the first occurrence. */
  lemma ReplaceFirstPlain(s: string, pat: string, rep: string)
    requires '$' !in rep
    ensures ReplaceFirstJs(s, pat, rep) == ReplaceFirst(s, pat, rep)
  {
    var i := IndexOf(s, pat);
    if i >= 0 {
      SubstitutionPlain(rep, pat, s[..i], s[i + |pat|..]);
    }
  }

  /** On a string that starts with the pattern, `replace` swaps that prefix for the expanded replacement. */
  lemma ReplaceJsPrefix(s: string, pat: string, rep: string)
    requires StartsWith(s, pat)
    ensures ReplaceFirstJs(s, pat, rep) == Substitution(rep, pat, "", s[|pat|..]) + s[|pat|..]
  {
    assert s[0..|pat|] == pat;
    assert s[..0] == "";
  }

  // ---------------------------------------------------------------------
  // toLowerCase / trim

  /** `toLowerCase` on one character, for ASCII letters. */
  function LowerChar(c: char): char {
    if 'A' <= c <= 'Z' then (c as int + 32) as char else c
  }

  /** `s.toLowerCase()` for ASCII text. */
  function ToLower(s: string): (r: string)
    ensures |r| == |s|
    ensures forall i :: 0 <= i < |s| ==> r[i] == LowerChar(s[i])
  {
    seq(|s|, i requires 0 <= i < |s| => LowerChar(s[i]))
  }

  /** Lower-casing distributes over concatenation. */
  lemma ToLowerAppend(a: string, b: string)
    ensures ToLower(a + b) == ToLower(a) + ToLower(b)
  {
  }

  /** The first piece of a split, as the recursion builds it. */
  lemma SplitHead(s: string, sep: char)
    requires |s| > 0 && s[0] != sep
    ensures Split(s, sep)[0] == [s[0]] + Split(s[1..], sep)[0]
    ensures |Split(s, sep)| == |Split(s[1..], sep)|
  {
  }

  /**
   * Taking the text after the last separator commutes with lower-casing
   * when the separator is not a letter.
   */
  lemma {:induction false} AfterLastToLower(s: string, sep: char)
    requires !('A' <= sep <= 'Z') && !('a' <= sep <= 'z')
    ensures AfterLast(ToLower(s), sep) == ToLower(AfterLast(s, sep))
    decreases |s|
  {
    if |s| > 0 {
      var l := ToLower(s);
      assert l[1..] == ToLower(s[1..]);
      assert l[0] == sep <==> s[0] == sep;
      AfterLastToLower(s[1..], sep);
      SplitLengthToLower(s[1..], sep);
      AfterLastCons(s, sep);
      AfterLastCons(l, sep);
      if s[0] != sep && |Split(s[1..], sep)| == 1 {
        ToLowerAppend([s[0]], AfterLast(s[1..], sep));
      }
    }
  }

  /** The text after the last separator of a non-empty string, in terms of its tail. */
  lemma AfterLastCons(s: string, sep: char)
    requires |s| > 0
    ensures AfterLast(s, sep) ==
      if s[0] != sep && |Split(s[1..], sep)| == 1 then [s[0]] + AfterLast(s[1..], sep) else AfterLast(s[1..], sep)
  {
    var rest := Split(s[1..], sep);
    if s[0] == sep {
      assert Split(s, sep) == [""] + rest;
    } else {
      SplitHead(s, sep);
    }
  }

  /** Lower-casing does not change the number of pieces. */
  lemma {:induction false} SplitLengthToLower(s: string, sep: char)
    requires !('A' <= sep <= 'Z') && !('a' <= sep <= 'z')
    ensures |Split(ToLower(s), sep)| == |Split(s, sep)|
    decreases |s|
  {
    if |s| > 0 {
      var l := ToLower(s);
      assert l[1..] == ToLower(s[1..]);
      SplitLengthToLower(s[1..], sep);
      assert (l[0] == sep) == (s[0] == sep);
    }
  }

  /** The characters `String.prototype.trim` removes (white space and line terminators). */
  predicate IsWhitespace(c: char) {
    var n := c as int;
    n == 0x09 || n == 0x0A || n == 0x0B || n == 0x0C || n == 0x0D || n == 0x20 ||
    n == 0xA0 || n == 0x1680 || (0x2000 <= n <= 0x200A) || n == 0x2028 || n == 0x2029 ||
    n == 0x202F || n == 0x205F || n == 0x3000 || n == 0xFEFF
  }

  /** `s.trim() === ''`, equivalently `!s.trim()`. */
  predicate IsBlank(s: string) {
    forall i :: 0 <= i < |s| ==> IsWhitespace(s[i])
  }

  // ---------------------------------------------------------------------
  // String(n) / parseInt

  function DigitChar(d: nat): (c: char)
    requires d < 10
    ensures '0' <= c <= '9'
  {
    ('0' as int + d) as char
  }

  /** `String(n)` for a non-negative integer: its decimal digits. */
  function NatToString(n: nat): (s: string)
    ensures |s| >= 1
    ensures forall i :: 0 <= i < |s| ==> '0' <= s[i] <= '9'
    decreases n
  {
    if n < 10 then [DigitChar(n)] else NatToString(n / 10) + [DigitChar(n % 10)]
  }

  /** `String(i)` for an integer. */
  function IntToString(i: int): string {
    if i < 0 then "-" + NatToString(-i) else NatToString(i)
  }

  /** The value of a character as a digit in the given radix, if it is one. */
  function DigitValue(c: char, radix: nat): Option<nat> {
    var v: int :=
      if '0' <= c <= '9' then c as int - '0' as int
      else if 'a' <= c <= 'z' then c as int - 'a' as int + 10
      else if 'A' <= c <= 'Z' then c as int - 'A' as int + 10
      else 99;
    if 0 <= v < radix then Some(v) else None
  }

  /** The length of the longest prefix of `s` made of digits in `radix`. */
  function DigitRun(s: string, radix: nat): (k: nat)
    ensures k <= |s|
    decreases |s|
  {
    if |s| == 0 || DigitValue(s[0], radix).None? then 0 else 1 + DigitRun(s[1..], radix)
  }

  /** The value of a string of digits, most significant first. */
  function DigitsValue(s: string, radix: nat): nat
    decreases |s|
  {
    if |s| == 0 then 0
    else
      var d := DigitValue(s[|s| - 1], radix);
      DigitsValue(s[..|s| - 1], radix) * radix + (if d.Some? then d.value else 0)
  }

  /** Drops leading white space, as `parseInt` does. */
  function TrimStart(s: string): (r: string)
    ensures |r| <= |s|
    decreases |s|
  {
    if |s| > 0 && IsWhitespace(s[0]) then TrimStart(s[1..]) else s
  }

  /**
   * `parseInt(s)` with no radix: leading white space, an optional sign, an
   * optional `0x` prefix selecting base 16, then the longest run of digits;
   * `None` stands for `NaN` (no digit at all).
   */
  function ParseInt(s: string): Option<int> {
    var t := TrimStart(s);
    var negative := |t| > 0 && t[0] == '-';
    var u := if |t| > 0 && (t[0] == '-' || t[0] == '+') then t[1..] else t;
    var hex := |u| >= 2 && u[0] == '0' && (u[1] == 'x' || u[1] == 'X');
    var radix := if hex then 16 else 10;
    var digits := if hex then u[2..] else u;
    var k := DigitRun(digits, radix);
    if k == 0 then None
    else
      var v: int := DigitsValue(digits[..k], radix);
      Some(if negative then 0 - v else v)
  }

  lemma {:induction false} DigitsOfNatToString(n: nat)
    ensures DigitRun(NatToString(n), 10) == |NatToString(n)|
    ensures DigitsValue(NatToString(n), 10) == n
    decreases n
  {
    var s := NatToString(n);
    if n >= 10 {
      DigitsOfNatToString(n / 10);
      DigitRunAllDigits(s);
      assert s[..|s| - 1] == NatToString(n / 10);
    } else {
      DigitRunAllDigits(s);
    }
  }

  lemma {:induction false} DigitRunAllDigits(s: string)
    requires forall i :: 0 <= i < |s| ==> '0' <= s[i] <= '9'
    ensures DigitRun(s, 10) == |s|
    decreases |s|
  {
    if |s| > 0 {
      DigitRunAllDigits(s[1..]);
    }
  }

  /** `parseInt(String(n))` gives `n` back for every non-negative integer. */
  lemma ParseIntOfNatToString(n: nat)
    ensures ParseInt(NatToString(n)) == Some(n)
  {
    var s := NatToString(n);
    DigitsOfNatToString(n);
    assert TrimStart(s) == s;
    assert s[..|s|] == s;
    if |s| >= 2 && s[0] == '0' {
      // only "0" itself starts with a zero digit
      assert n >= 10;
      LeadingDigitNonZero(n);
    }
  }

  lemma {:induction false} LeadingDigitNonZero(n: nat)
    requires n >= 10
    ensures NatToString(n)[0] != '0'
    decreases n
  {
    if n / 10 >= 10 {
      LeadingDigitNonZero(n / 10);
    }
  }

  /** `parseInt(String(i))` gives `i` back for every integer, negative ones included. */
  lemma ParseIntOfIntToString(i: int)
    ensures ParseInt(IntToString(i)) == Some(i)
  {
    if i >= 0 {
      ParseIntOfNatToString(i);
    } else {
      var n: nat := -i;
      var s := NatToString(n);
      DigitsOfNatToString(n);
      assert TrimStart("-" + s) == "-" + s;
      assert ("-" + s)[1..] == s;
      assert s[..|s|] == s;
      if |s| >= 2 && s[0] == '0' {
        assert n >= 10;
        LeadingDigitNonZero(n);
      }
    }
  }

  /** Distinct integers have distinct decimal strings. */
  lemma IntToStringInjective(i: int, j: int)
    ensures IntToString(i) == IntToString(j) ==> i == j
  {
    ParseIntOfIntToString(i);
    ParseIntOfIntToString(j);
  }

  // ---------------------------------------------------------------------
  // ordering

  /** Strict lexicographic order on characters. */
  predicate LexLess(a: string, b: string)
    decreases |a|
  {
    if |a| == 0 then |b| > 0
    else if |b| == 0 then false
    else if a[0] != b[0] then a[0] < b[0]
    else LexLess(a[1..], b[1..])
  }

  lemma {:induction false} LexLessIrreflexive(a: string)
    ensures !LexLess(a, a)
    decreases |a|
  {
    if |a| > 0 {
      LexLessIrreflexive(a[1..]);
    }
  }

  lemma {:induction false} LexLessTotal(a: string, b: string)
    ensures a == b || LexLess(a, b) || LexLess(b, a)
    decreases |a|
  {
    if |a| > 0 && |b| > 0 && a[0] == b[0] {
      LexLessTotal(a[1..], b[1..]);
      if a[1..] == b[1..] {
        assert a == [a[0]] + a[1..] && b == [b[0]] + b[1..];
      }
    }
  }

  lemma {:induction false} LexLessAsymmetric(a: string, b: string)
    ensures LexLess(a, b) ==> !LexLess(b, a)
    decreases |a|
  {
    if |a| > 0 && |b| > 0 && a[0] == b[0] {
      LexLessAsymmetric(a[1..], b[1..]);
    }
  }

  lemma {:induction false} LexLessTransitive(a: string, b: string, c: string)
    requires LexLess(a, b) && LexLess(b, c)
    ensures LexLess(a, c)
    decreases |a|
  {
    if |a| > 0 && |b| > 0 && |c| > 0 && a[0] == b[0] && b[0] == c[0] {
      LexLessTransitive(a[1..], b[1..], c[1..]);
    }
  }
}
