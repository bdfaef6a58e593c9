/**
 * The parts of the ECMAScript string library the checkout code relies on:
 * the regular-expression classes `\d` and `\s`, global `replace` used as a
 * character filter, `trim`/`trimStart`, `split`, `Array.prototype.join`,
 * `match(/.{1,n}/g)`, `substring`, `slice` and ASCII upper-casing.
 * A string is a sequence of characters.
 */
module JsString {

  function Min(a: int, b: int): int { if a <= b then a else b }

  /** `\d`: an ASCII decimal digit. */
  predicate IsDigit(c: char) { '0' <= c <= '9' }

  /**
   * `\s`, and the characters `trim` removes: ECMAScript WhiteSpace
   * (TAB, VT, FF, ZWNBSP and every space separator) and LineTerminator
   * (LF, CR, LS, PS).
   */
  predicate IsWhitespace(c: char) {
    || c == '\t' || c == '\n' || c == '\U{000B}' || c == '\U{000C}' || c == '\r'
    || c == ' ' || c == '\U{00A0}' || c == '\U{1680}' || ('\U{2000}' <= c <= '\U{200A}')
    || c == '\U{2028}' || c == '\U{2029}' || c == '\U{202F}' || c == '\U{205F}'
    || c == '\U{3000}' || c == '\U{FEFF}'
  }

  /** `\S`. */
  predicate IsNonWhitespace(c: char) { !IsWhitespace(c) }

  /** `[0-9.]`: what the amount field accepts. */
  predicate IsAmountChar(c: char) { IsDigit(c) || c == '.' }

  lemma DigitIsNotWhitespace(c: char)
    requires IsDigit(c)
    ensures IsNonWhitespace(c)
  {
  }

  // ---------------------------------------------------------------------
  // replace(/[^...]/g, ''): keep the accepted characters, in order

  /** `s.replace(/X/g, '')` where X matches exactly the characters `keep` rejects. */
  function Filter(keep: char -> bool, s: string): (r: string)
    ensures |r| <= |s|
    ensures forall i :: 0 <= i < |r| ==> keep(r[i])
    decreases |s|
  {
    if s == [] then []
    else if keep(s[0]) then [s[0]] + Filter(keep, s[1..])
    else Filter(keep, s[1..])
  }

  /** Filtering works piecewise: nothing is reordered across a concatenation. */
  lemma {:induction false} FilterAppend(keep: char -> bool, a: string, b: string)
    ensures Filter(keep, a + b) == Filter(keep, a) + Filter(keep, b)
    decreases |a|
  {
    if a == [] {
      assert a + b == b;
    } else {
      assert (a + b)[0] == a[0];
      assert (a + b)[1..] == a[1..] + b;
      FilterAppend(keep, a[1..], b);
    }
  }

  /** A string is left unchanged exactly when every character is kept. */
  lemma {:induction false} FilterFixedPoint(keep: char -> bool, s: string)
    ensures Filter(keep, s) == s <==> forall i :: 0 <= i < |s| ==> keep(s[i])
    decreases |s|
  {
    if s != [] && forall i :: 0 <= i < |s| ==> keep(s[i]) {
      assert forall i :: 0 <= i < |s[1..]| ==> keep(s[1..][i]) by {
        forall i | 0 <= i < |s[1..]| ensures keep(s[1..][i]) { assert s[1..][i] == s[i + 1]; }
      }
      FilterFixedPoint(keep, s[1..]);
      assert s == [s[0]] + s[1..];
    }
  }

  /** Filtering twice is filtering once. */
  lemma {:induction false} FilterIdempotent(keep: char -> bool, s: string)
    ensures Filter(keep, Filter(keep, s)) == Filter(keep, s)
  {
    FilterFixedPoint(keep, Filter(keep, s));
  }

  /** Every accepted character keeps all its occurrences; every rejected one has none. */
  lemma {:induction false} FilterCounts(keep: char -> bool, s: string, c: char)
    ensures multiset(Filter(keep, s))[c] == if keep(c) then multiset(s)[c] else 0
    decreases |s|
  {
    if s != [] {
      FilterCounts(keep, s[1..], c);
      assert s == [s[0]] + s[1..];
      assert multiset(s) == multiset([s[0]]) + multiset(s[1..]);
    }
  }

  /** A character survives filtering exactly when it is accepted and occurs in the input. */
  lemma {:induction false} FilterMembership(keep: char -> bool, s: string, c: char)
    ensures c in Filter(keep, s) <==> keep(c) && c in s
    decreases |s|
  {
    if s != [] {
      FilterMembership(keep, s[1..], c);
      assert s == [s[0]] + s[1..];
    }
  }

  /** Nothing survives filtering exactly when no character is accepted. */
  lemma FilterEmpty(keep: char -> bool, s: string)
    ensures Filter(keep, s) == [] <==> forall i :: 0 <= i < |s| ==> !keep(s[i])
  {
    forall i | 0 <= i < |s| ensures keep(s[i]) ==> s[i] in Filter(keep, s) {
      FilterMembership(keep, s, s[i]);
    }
    if Filter(keep, s) != [] {
      var r := Filter(keep, s);
      FilterMembership(keep, s, r[0]);
    }
  }

  // ---------------------------------------------------------------------
  // trimStart / trim

  /** The number of whitespace characters `s` starts with. */
  function LeadingWhitespace(s: string): (k: nat)
    ensures k <= |s|
    ensures forall i :: 0 <= i < k ==> IsWhitespace(s[i])
    ensures k < |s| ==> !IsWhitespace(s[k])
    decreases |s|
  {
    if s == [] || !IsWhitespace(s[0]) then 0 else 1 + LeadingWhitespace(s[1..])
  }

  /** The number of whitespace characters `s` ends with. */
  function TrailingWhitespace(s: string): (k: nat)
    ensures k <= |s|
    ensures forall i :: |s| - k <= i < |s| ==> IsWhitespace(s[i])
    ensures k < |s| ==> !IsWhitespace(s[|s| - 1 - k])
    decreases |s|
  {
    if s == [] || !IsWhitespace(s[|s| - 1]) then 0 else 1 + TrailingWhitespace(s[..|s| - 1])
  }

  /** `String.prototype.trimStart`. */
  function TrimStart(s: string): string {
    s[LeadingWhitespace(s)..]
  }

  /**
   * `String.prototype.trim`: what lies between the leading and the trailing
   * whitespace; nothing when the text is all whitespace. Whatever it keeps
   * starts and ends on a non-whitespace character.
   */
  function Trim(s: string): (r: string)
    ensures |r| <= |s|
    ensures r != [] ==> !IsWhitespace(r[0]) && !IsWhitespace(r[|r| - 1])
  {
    var a := LeadingWhitespace(s);
    if a == |s| then [] else
      var b := TrailingWhitespace(s);
      assert !IsWhitespace(s[a]);
      assert a <= |s| - 1 - b;
      s[a..|s| - b]
  }

  /**
   * What `trim` returns: the stretch of `s` that starts at its first
   * non-whitespace character, with only whitespace after it.
   */
  lemma TrimIsStretch(s: string)
    ensures LeadingWhitespace(s) + |Trim(s)| <= |s|
    ensures Trim(s) == s[LeadingWhitespace(s)..LeadingWhitespace(s) + |Trim(s)|]
    ensures forall k :: LeadingWhitespace(s) + |Trim(s)| <= k < |s| ==> IsWhitespace(s[k])
  {
    var a, r := LeadingWhitespace(s), Trim(s);
    if a < |s| {
      var b := TrailingWhitespace(s);
      assert !IsWhitespace(s[a]);
      assert |r| == |s| - a - b;
    }
  }

  /** `trim` gives the empty string exactly for an all-whitespace string. */
  lemma TrimEmpty(s: string)
    ensures Trim(s) == [] <==> forall i :: 0 <= i < |s| ==> IsWhitespace(s[i])
  {
  }

  /** A trimmed string has two or more characters exactly when `s` has two non-whitespace ones. */
  lemma TrimAtLeastTwo(s: string)
    ensures 2 <= |Trim(s)| <==>
      exists i, j :: 0 <= i < j < |s| && !IsWhitespace(s[i]) && !IsWhitespace(s[j])
  {
    var a, r := LeadingWhitespace(s), Trim(s);
    TrimIsStretch(s);
    if exists i, j :: 0 <= i < j < |s| && !IsWhitespace(s[i]) && !IsWhitespace(s[j]) {
      var i, j :| 0 <= i < j < |s| && !IsWhitespace(s[i]) && !IsWhitespace(s[j]);
      TrimKeepsNonWhitespace(s, i);
      TrimKeepsNonWhitespace(s, j);
    }
    if 2 <= |r| {
      var i, j := a, a + |r| - 1;
      assert s[i] == r[0] && s[j] == r[|r| - 1];
    }
  }

  /** Every non-whitespace character of `s` lies inside the stretch `trim` keeps. */
  lemma TrimKeepsNonWhitespace(s: string, i: nat)
    requires i < |s| && !IsWhitespace(s[i])
    ensures LeadingWhitespace(s) <= i < LeadingWhitespace(s) + |Trim(s)|
  {
    TrimIsStretch(s);
  }

  /** Trimming twice is trimming once. */
  lemma TrimIdempotent(s: string)
    ensures Trim(Trim(s)) == Trim(s)
  {
    var r := Trim(s);
    if r != [] {
      TrimIsStretch(s);
      assert LeadingWhitespace(r) == 0;
      assert TrailingWhitespace(r) == 0;
      assert r[0..|r|] == r;
    }
  }

  // ---------------------------------------------------------------------
  // split / join

  /**
   * `Array.prototype.join(sep)` on an array of strings: it starts with the
   * first piece and adds one separator between each two consecutive pieces
   * (`JoinSeparatorCount`).
   */
  function Join(parts: seq<string>, sep: char): (r: string)
    ensures |parts| > 0 ==> |parts[0]| <= |r| && r[..|parts[0]|] == parts[0]
    ensures |r| >= |parts| - 1
    decreases |parts|
  {
    if |parts| == 0 then []
    else if |parts| == 1 then parts[0]
    else parts[0] + [sep] + Join(parts[1..], sep)
  }
  /**
   * Joining puts at least one separator between each two consecutive pieces,
   * and exactly `|parts| - 1` separators when no piece holds one.
   */
  lemma {:induction false} JoinSeparatorCount(parts: seq<string>, sep: char)
    ensures multiset(Join(parts, sep))[sep] >= |parts| - 1
    ensures |parts| > 0 && (forall i :: 0 <= i < |parts| ==> sep !in parts[i]) ==>
      multiset(Join(parts, sep))[sep] == |parts| - 1
    decreases |parts|
  {
    if |parts| > 1 {
      var rest := Join(parts[1..], sep);
      JoinSeparatorCount(parts[1..], sep);
      assert Join(parts, sep) == parts[0] + [sep] + rest;
      assert multiset(Join(parts, sep)) == multiset(parts[0]) + multiset([sep]) + multiset(rest);
      if forall i :: 0 <= i < |parts| ==> sep !in parts[i] {
        assert forall i :: 0 <= i < |parts[1..]| ==> sep !in parts[1..][i] by {
          forall i | 0 <= i < |parts[1..]| ensures sep !in parts[1..][i] { assert parts[1..][i] == parts[i + 1]; }
        }
        assert sep !in parts[0];
      }
    }
  }


  /** `String.prototype.split(sep)` for a one-character separator. */
  function Split(s: string, sep: char): (parts: seq<string>)
    ensures |parts| >= 1
    ensures forall i :: 0 <= i < |parts| ==> sep !in parts[i]
    decreases |s|
  {
    if s == [] then [[]]
    else
      var rest := Split(s[1..], sep);
      if s[0] == sep then [[]] + rest
      else [[s[0]] + rest[0]] + rest[1..]
  }

  /** Joining the pieces of a split gives back the original string. */
  lemma {:induction false} SplitThenJoin(s: string, sep: char)
    ensures Join(Split(s, sep), sep) == s
    decreases |s|
  {
    if s != [] {
      var rest := Split(s[1..], sep);
      SplitThenJoin(s[1..], sep);
      if s[0] == sep {
        assert ([[]] + rest)[1..] == rest;
      } else {
        var parts := [[s[0]] + rest[0]] + rest[1..];
        if |rest| == 1 {
          assert parts == [[s[0]] + rest[0]];
        } else {
          assert parts[1..] == rest[1..];
          assert Join(rest, sep) == rest[0] + [sep] + Join(rest[1..], sep);
        }
        assert s == [s[0]] + s[1..];
      }
    }
  }

  /** A string without the separator splits into itself. */
  lemma {:induction false} SplitWithoutSeparator(s: string, sep: char)
    requires sep !in s
    ensures Split(s, sep) == [s]
    decreases |s|
  {
    if s != [] {
      SplitWithoutSeparator(s[1..], sep);
      assert s == [s[0]] + s[1..];
    }
  }

  /** Splitting at the first separator peels off the first piece. */
  lemma {:induction false} SplitAtFirstSeparator(a: string, sep: char, b: string)
    requires sep !in a
    ensures Split(a + [sep] + b, sep) == [a] + Split(b, sep)
    decreases |a|
  {
    var s := a + [sep] + b;
    if a == [] {
      assert s[0] == sep && s[1..] == b;
    } else {
      assert s[0] == a[0];
      assert s[1..] == a[1..] + [sep] + b;
      SplitAtFirstSeparator(a[1..], sep, b);
      assert a == [a[0]] + a[1..];
    }
  }

  /** Splitting a join of separator-free pieces gives back the pieces. */
  lemma {:induction false} JoinThenSplit(parts: seq<string>, sep: char)
    requires |parts| >= 1
    requires forall i :: 0 <= i < |parts| ==> sep !in parts[i]
    ensures Split(Join(parts, sep), sep) == parts
    decreases |parts|
  {
    if |parts| == 1 {
      SplitWithoutSeparator(parts[0], sep);
    } else {
      JoinThenSplit(parts[1..], sep);
      SplitAtFirstSeparator(parts[0], sep, Join(parts[1..], sep));
      assert parts == [parts[0]] + parts[1..];
    }
  }

  /** A split has one more piece than the string has separators. */
  lemma {:induction false} SplitPieceCount(s: string, sep: char)
    ensures |Split(s, sep)| == multiset(s)[sep] + 1
    decreases |s|
  {
    if s != [] {
      SplitPieceCount(s[1..], sep);
      assert s == [s[0]] + s[1..];
      assert multiset(s) == multiset([s[0]]) + multiset(s[1..]);
    }
  }

  // ---------------------------------------------------------------------
  // match(/.{1,n}/g)

  /**
   * `s` cut into pieces of `n` characters, the last one possibly shorter.
   * On text without line terminators (LF, CR, U+2028, U+2029, which `.`
   * does not match) these are the successive matches of `/.{1,n}/g`; the
   * card formatter applies it to digits only. `match` answers `null` when
   * nothing matches; that is the empty sequence here.
   */
  function Chunks(s: string, n: nat): (r: seq<string>)
    requires n > 0
    ensures r == [] <==> s == []
    ensures forall i :: 0 <= i < |r| ==> 0 < |r[i]| <= n
    ensures forall i :: 0 <= i < |r| - 1 ==> |r[i]| == n
    decreases |s|
  {
    if s == [] then []
    else if |s| <= n then [s]
    else [s[..n]] + Chunks(s[n..], n)
  }

  // ---------------------------------------------------------------------
  // substring / slice

  function Clamp(i: int, len: nat): (r: nat)
    ensures r <= len
  {
    if i < 0 then 0 else if i > len then len else i
  }

  /** `String.prototype.substring(start, end)`: both ends clamped, swapped when reversed. */
  function Substring(s: string, start: int, end: int): (r: string)
    ensures |r| <= |s|
  {
    var a, b := Clamp(start, |s|), Clamp(end, |s|);
    if a <= b then s[a..b] else s[b..a]
  }

  /** `String.prototype.slice(start)`: a negative start counts from the end. */
  function Slice(s: string, start: int): (r: string)
    ensures |r| <= |s|
    ensures r == s[|s| - |r|..]
  {
    var a := if start < 0 then Clamp(|s| + start, |s|) else Clamp(start, |s|);
    s[a..]
  }

  /**
   * `slice(-k)` for a positive `k` is the last `k` characters, or all of
   * them when there are fewer (`slice(-0)` is `slice(0)`, the whole string).
   */
  lemma SliceFromEnd(s: string, k: nat)
    requires k > 0
    ensures |Slice(s, 0 - k)| == Min(k, |s|)
    ensures s == s[..|s| - Min(k, |s|)] + Slice(s, 0 - k)
  {
  }

  // ---------------------------------------------------------------------
  // toUpperCase on ASCII text

  function UpperAscii(c: char): char {
    if 'a' <= c <= 'z' then (c as int - 'a' as int + 'A' as int) as char else c
  }

  /**
   * `String.prototype.toUpperCase` on text whose only letters are ASCII:
   * `a`-`z` become `A`-`Z`, every other character is kept.
   */
  function ToUpperAscii(s: string): (r: string)
    ensures |r| == |s|
    ensures forall i :: 0 <= i < |s| ==> r[i] == UpperAscii(s[i])
  {
    seq(|s|, i requires 0 <= i < |s| => UpperAscii(s[i]))
  }
}
