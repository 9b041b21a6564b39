/**
  The JavaScript string operations the seeding scripts rely on, written out as
  functions on `string` (a `seq<char>`): case mapping, `indexOf`/`includes`,
  `replace` with a literal pattern, `split` on a character or a string,
  `trimEnd` and the decimal rendering of a number in a template literal.
  Case mapping covers the ASCII letters only.
 */
module Text {
  import opened Wrappers

  predicate IsUpper(c: char) { 'A' <= c <= 'Z' }

  predicate IsLower(c: char) { 'a' <= c <= 'z' }

  predicate IsDigit(c: char) { '0' <= c <= '9' }

  /** The characters of the regular-expression class `\w`; `\W` is every other character. */
  predicate IsWordChar(c: char) { IsUpper(c) || IsLower(c) || IsDigit(c) || c == '_' }

  /** The characters `String.prototype.trimEnd` removes: white space and line terminators. */
  predicate IsWhitespace(c: char)
  {
    c == ' ' || c == '\t' || c == '\n' || c == '\r' || c == '\U{0B}' || c == '\U{0C}'
    || c == '\U{A0}' || c == '\U{1680}' || ('\U{2000}' <= c <= '\U{200A}')
    || c == '\U{2028}' || c == '\U{2029}' || c == '\U{202F}' || c == '\U{205F}'
    || c == '\U{3000}' || c == '\U{FEFF}'
  }

  /** The characters that the regular-expression `.` does not match. */
  predicate IsLineTerminator(c: char) { c == '\n' || c == '\r' || c == '\U{2028}' || c == '\U{2029}' }

  function LowerChar(c: char): (r: char)
    ensures !IsUpper(r)
    ensures IsUpper(c) ==> IsLower(r)
    ensures IsUpper(c) || r == c
  {
    if IsUpper(c) then (c as int + 32) as char else c
  }

  function UpperChar(c: char): (r: char)
    ensures !IsLower(r)
    ensures IsLower(c) ==> IsUpper(r)
    ensures IsLower(c) || r == c
  {
    if IsLower(c) then (c as int - 32) as char else c
  }

  /** `s.toLowerCase()` */
  function Lower(s: string): (r: string)
    ensures |r| == |s|
    ensures forall i :: 0 <= i < |s| ==> r[i] == LowerChar(s[i])
  {
    seq(|s|, i requires 0 <= i < |s| => LowerChar(s[i]))
  }

  /** `pat` occurs in `s` starting at index `i`. */
  predicate IsAt(s: string, pat: string, i: nat)
  {
    i + |pat| <= |s| && s[i..i + |pat|] == pat
  }

  /** The first index at or after `from` where `pat` occurs in `s`. */
  function IndexFrom(s: string, pat: string, from: nat): (r: Option<nat>)
    decreases |s| - from
    ensures r.Some? ==> from <= r.value && IsAt(s, pat, r.value)
    ensures r.Some? ==> forall j :: from <= j < r.value ==> !IsAt(s, pat, j)
    ensures r.None? ==> forall j :: from <= j ==> !IsAt(s, pat, j)
  {
    if from + |pat| > |s| then None
    else if s[from..from + |pat|] == pat then Some(from)
    else IndexFrom(s, pat, from + 1)
  }

  /** `s.indexOf(pat)`, with `None` for -1. */
  function IndexOf(s: string, pat: string): (r: Option<nat>)
    ensures r.Some? ==> IsAt(s, pat, r.value) && forall j :: 0 <= j < r.value ==> !IsAt(s, pat, j)
    ensures r.None? <==> forall j :: 0 <= j ==> !IsAt(s, pat, j)
  {
    IndexFrom(s, pat, 0)
  }

  /** `s.includes(pat)` */
  predicate Contains(s: string, pat: string)
  {
    IndexOf(s, pat).Some?
  }

  /** `s.replace(pat, rep)` with a literal string pattern: only the first occurrence is replaced. */
  function ReplaceFirst(s: string, pat: string, rep: string): (r: string)
    ensures !Contains(s, pat) ==> r == s
    ensures Contains(s, pat) ==> |r| == |s| - |pat| + |rep|
    ensures Contains(s, pat) ==>
              var i := IndexOf(s, pat).value;
              r[..i] == s[..i] && r[i..i + |rep|] == rep && r[i + |rep|..] == s[i + |pat|..]
  {
    match IndexOf(s, pat)
    case None => s
    case Some(i) => s[..i] + rep + s[i + |pat|..]
  }

  /** Replacing a pattern the string starts with by "" leaves what follows it. */
  lemma ReplaceAtStart(pat: string, rest: string)
    requires pat != []
    ensures ReplaceFirst(pat + rest, pat, "") == rest
  {
    var s := pat + rest;
    assert IsAt(s, pat, 0);
    assert IndexOf(s, pat) == Some(0);
  }

  /** Cutting a slice out of a sequence introduces no new element. */
  lemma CutKeepsElements<T>(s: seq<T>, i: nat, j: nat, x: T)
    requires i <= j <= |s|
    requires x in s[..i] + [] + s[j..]
    ensures x in s
  {
    var r := s[..i] + s[j..];
    assert s[..i] + [] + s[j..] == r;
    var k :| 0 <= k < |r| && r[k] == x;
    if k < i {
      assert s[k] == x;
    } else {
      assert s[k - i + j] == x;
    }
  }

  /** Removing the first occurrence of a pattern introduces no new character. */
  lemma RemoveFirstKeepsChars(s: string, pat: string, c: char)
    requires c in ReplaceFirst(s, pat, "")
    ensures c in s
  {
    match IndexOf(s, pat)
    case None =>
    case Some(i) =>
      CutKeepsElements(s, i, i + |pat|, c);
  }
  /** Removing the first `pat` brings in no character of `cs` that `s` avoids. */
  lemma RemoveFirstAvoids(s: string, pat: string, cs: set<char>)
    requires forall i :: 0 <= i < |s| ==> s[i] !in cs
    ensures var r := ReplaceFirst(s, pat, ""); forall i :: 0 <= i < |r| ==> r[i] !in cs
  {
    var r := ReplaceFirst(s, pat, "");
    forall i | 0 <= i < |r| ensures r[i] !in cs {
      RemoveFirstKeepsChars(s, pat, r[i]);
    }
  }


  /** `s.replace(new RegExp(pat, "g"), "")` for a pattern without metacharacters:
      every non-overlapping occurrence, scanning left to right, is removed. */
  function RemoveEvery(s: string, pat: string): (r: string)
    decreases |s|
    ensures |r| <= |s|
    ensures pat == [] ==> r == s
  {
    if pat == [] || |s| < |pat| then s
    else if s[..|pat|] == pat then RemoveEvery(s[|pat|..], pat)
    else [s[0]] + RemoveEvery(s[1..], pat)
  }

  /** A pattern found in neither part, and without the second part's first character, is not
      found in the concatenation either. */
  lemma NotAcross(a: string, b: string, pat: string)
    requires b != [] && b[0] !in pat
    requires !Contains(a, pat) && !Contains(b, pat)
    ensures !Contains(a + b, pat)
  {
    var s := a + b;
    forall j: nat ensures !IsAt(s, pat, j) {
      if j + |pat| <= |s| {
        if j + |pat| <= |a| {
          assert !IsAt(a, pat, j);
          assert s[j..j + |pat|] == a[j..j + |pat|];
        } else if j >= |a| {
          assert !IsAt(b, pat, j - |a|);
          assert s[j..j + |pat|] == b[j - |a|..j - |a| + |pat|];
        } else {
          assert s[j..j + |pat|][|a| - j] == b[0];
        }
      }
    }
  }

  /** A pattern whose first character does not recur in it is first found where it is appended
      to a string that does not contain it. */
  lemma FirstFoundAtEnd(a: string, pat: string)
    requires pat != [] && !Contains(a, pat)
    requires pat[0] !in pat[1..]
    ensures IndexOf(a + pat, pat) == Some(|a|)
  {
    var s := a + pat;
    assert IsAt(s, pat, |a|);
    forall j | 0 <= j < |a| ensures !IsAt(s, pat, j) {
      if j + |pat| <= |a| {
        assert !IsAt(a, pat, j);
        assert s[j..j + |pat|] == a[j..j + |pat|];
      } else {
        assert s[j..j + |pat|][|a| - j] == pat[0];
        assert pat[|a| - j] == pat[1..][|a| - j - 1];
      }
    }
  }

  /** Removing every occurrence of a pattern that does not occur leaves the string as it is. */
  lemma {:induction false} RemoveEveryAbsent(s: string, pat: string)
    requires pat != [] && !Contains(s, pat)
    decreases |s|
    ensures RemoveEvery(s, pat) == s
  {
    if |s| >= |pat| {
      assert !IsAt(s, pat, 0);
      assert !Contains(s[1..], pat) by {
        forall j: nat ensures !IsAt(s[1..], pat, j) {
          if j + |pat| <= |s| - 1 {
            assert !IsAt(s, pat, j + 1);
            assert s[1..][j..j + |pat|] == s[j + 1..j + 1 + |pat|];
          }
        }
      }
      RemoveEveryAbsent(s[1..], pat);
      assert [s[0]] + s[1..] == s;
    }
  }

  /** `s.replace(/[...]/g, "")`: every character of `cs` is removed. */
  function RemoveChars(s: string, cs: set<char>): (r: string)
    ensures |r| <= |s|
    ensures forall i :: 0 <= i < |r| ==> r[i] !in cs
  {
    if s == [] then []
    else (if s[0] in cs then [] else [s[0]]) + RemoveChars(s[1..], cs)
  }

  /** `s.replace(/x/g, y)` for single characters `x` and `y`. */
  function ReplaceChar(s: string, x: char, y: char): (r: string)
    ensures |r| == |s|
    ensures forall i :: 0 <= i < |s| ==> r[i] == if s[i] == x then y else s[i]
  {
    seq(|s|, i requires 0 <= i < |s| => if s[i] == x then y else s[i])
  }

  /** `s.split(sep)` for a one-character separator. */
  function Split(s: string, sep: char): (r: seq<string>)
    ensures |r| >= 1
    ensures Join(r, [sep]) == s
    ensures forall k :: 0 <= k < |r| ==> sep !in r[k]
  {
    if s == [] then [""]
    else
      var rest := Split(s[1..], sep);
      if s[0] == sep then
        JoinPrependFirst([], [""] + rest, [sep]);
        assert ([""] + rest)[1..] == rest;
        [""] + rest
      else
        JoinPrependFirst([s[0]], rest, [sep]);
        [[s[0]] + rest[0]] + rest[1..]
  }

  /** Putting `c` in front of the first word puts it in front of the joined string. */
  lemma JoinPrependFirst(c: string, words: seq<string>, sep: string)
    requires |words| >= 1
    ensures Join([c + words[0]] + words[1..], sep) == c + Join(words, sep)
  {
    var w := [c + words[0]] + words[1..];
    assert w[1..] == words[1..];
    if |words| >= 2 {
      assert (c + words[0]) + sep + Join(words[1..], sep) == c + (words[0] + sep + Join(words[1..], sep));
    }
  }

  /** Splitting at a separator placed between `a` and `b` gives the parts of `a`, then those of `b`. */
  lemma {:induction false} SplitAppend(a: string, b: string, sep: char)
    decreases |a|
    ensures Split(a + [sep] + b, sep) == Split(a, sep) + Split(b, sep)
  {
    var t := a + [sep] + b;
    if a == [] {
      assert t == [sep] + b && t[1..] == b;
      SplitStepAtSeparator(t, sep);
    } else {
      assert t[0] == a[0] && t[1..] == a[1..] + [sep] + b;
      SplitAppend(a[1..], b, sep);
      var head := Split(a[1..], sep);
      var rest := Split(t[1..], sep);
      assert rest == head + Split(b, sep);
      if a[0] == sep {
        SplitStepAtSeparator(t, sep);
        SplitStepAtSeparator(a, sep);
      } else {
        SplitStepInPart(t, sep);
        SplitStepInPart(a, sep);
        PrependToFirst([a[0]], head, Split(b, sep));
      }
    }
  }

  /** A leading separator starts a new, empty, first part. */
  lemma SplitStepAtSeparator(s: string, sep: char)
    requires s != [] && s[0] == sep
    ensures Split(s, sep) == [""] + Split(s[1..], sep)
  {
  }

  /** A leading character other than the separator joins the first part. */
  lemma SplitStepInPart(s: string, sep: char)
    requires s != [] && s[0] != sep
    ensures var rest := Split(s[1..], sep); Split(s, sep) == [[s[0]] + rest[0]] + rest[1..]
  {
  }

  /** Extending the first of some words, then appending more words, extends the first word of all. */
  lemma PrependToFirst<T>(c: seq<T>, head: seq<seq<T>>, tail: seq<seq<T>>)
    requires |head| >= 1
    ensures var rest := head + tail;
      [c + rest[0]] + rest[1..] == [c + head[0]] + head[1..] + tail
  {
    var rest := head + tail;
    assert rest[0] == head[0] && rest[1..] == head[1..] + tail;
  }

  lemma {:induction false} SplitNoSeparator(s: string, sep: char)
    requires sep !in s
    ensures Split(s, sep) == [s]
  {
    if s != [] {
      SplitNoSeparator(s[1..], sep);
      assert [s[0]] + s[1..] == s;
    }
  }

  /** Splitting at the first separator: the part before it, then the split of the rest. */
  lemma {:induction false} SplitAtFirst(a: string, sep: char, b: string)
    requires sep !in a
    ensures Split(a + [sep] + b, sep) == [a] + Split(b, sep)
  {
    var s := a + [sep] + b;
    if a == [] {
      assert s[1..] == b;
    } else {
      assert s[1..] == a[1..] + [sep] + b;
      SplitAtFirst(a[1..], sep, b);
      assert [a[0]] + a[1..] == a;
    }
  }

  /** The first part of a split is a prefix of the string. */
  lemma {:induction false} SplitFirstIsPrefix(s: string, sep: char)
    ensures |Split(s, sep)[0]| <= |s| && s[..|Split(s, sep)[0]|] == Split(s, sep)[0]
  {
    if s != [] {
      SplitFirstIsPrefix(s[1..], sep);
    }
  }

  /** Every part of a split occurs in the string, so `indexOf` finds it. */
  lemma {:induction false} SplitPartOccurs(s: string, sep: char, k: nat)
    requires k < |Split(s, sep)|
    ensures exists j: nat :: IsAt(s, Split(s, sep)[k], j)
  {
    var r := Split(s, sep);
    if s == [] {
      assert IsAt(s, r[k], 0);
    } else {
      var rest := Split(s[1..], sep);
      if s[0] == sep && k == 0 {
        assert IsAt(s, r[k], 0);
      } else if k == 0 {
        SplitFirstIsPrefix(s[1..], sep);
        assert s[..1 + |rest[0]|] == [s[0]] + rest[0];
        assert IsAt(s, r[k], 0);
      } else {
        var k' := if s[0] == sep then k - 1 else k;
        assert r[k] == rest[k'];
        SplitPartOccurs(s[1..], sep, k');
        var j: nat :| IsAt(s[1..], rest[k'], j);
        assert s[j + 1..j + 1 + |rest[k']|] == s[1..][j..j + |rest[k']|];
        assert IsAt(s, r[k], j + 1);
      }
    }
  }

  /** `s.split(sep)` for a non-empty string separator. */
  function SplitOn(s: string, sep: string): (r: seq<string>)
    requires |sep| > 0
    decreases |s|
    ensures 1 <= |r|
    ensures |r| >= 2 <==> Contains(s, sep)
    ensures Join(r, sep) == s
    ensures forall k :: 0 <= k < |r| ==> !Contains(r[k], sep)
  {
    match IndexOf(s, sep)
    case None => [s]
    case Some(i) =>
      var rest := SplitOn(s[i + |sep|..], sep);
      assert !Contains(s[..i], sep) by {
        forall j: nat ensures !IsAt(s[..i], sep, j) {
          if j + |sep| <= i {
            assert !IsAt(s, sep, j);
            assert s[..i][j..j + |sep|] == s[j..j + |sep|];
          }
        }
      }
      assert s == s[..i] + sep + s[i + |sep|..];
      [s[..i]] + rest
  }

  /** `s.trimEnd()` */
  function TrimEnd(s: string): (r: string)
    ensures |r| <= |s| && r == s[..|r|]
    ensures r == [] || !IsWhitespace(r[|r| - 1])
    ensures forall i :: |r| <= i < |s| ==> IsWhitespace(s[i])
  {
    if s != [] && IsWhitespace(s[|s| - 1]) then TrimEnd(s[..|s| - 1]) else s
  }

  /** `s.replace(/^0+/, "")` */
  function StripLeadingZeros(s: string): (r: string)
    ensures |r| <= |s| && r == s[|s| - |r|..]
    ensures r == [] || r[0] != '0'
    ensures forall i :: 0 <= i < |s| - |r| ==> s[i] == '0'
  {
    if s != [] && s[0] == '0' then StripLeadingZeros(s[1..]) else s
  }

  function DigitChar(d: nat): (c: char)
    requires d < 10
    ensures IsDigit(c)
  {
    ('0' as int + d) as char
  }

  /** The number a string of decimal digits denotes. */
  function DecimalValue(s: string): nat
    requires forall i :: 0 <= i < |s| ==> IsDigit(s[i])
  {
    if s == [] then 0
    else
      assert IsDigit(s[|s| - 1]);
      DecimalValue(s[..|s| - 1]) * 10 + (s[|s| - 1] as int - '0' as int)
  }

  /** The decimal rendering of a non-negative integer, as in `${n}`. */
  function NatToString(n: nat): (r: string)
    ensures 1 <= |r|
    ensures forall i :: 0 <= i < |r| ==> IsDigit(r[i])
    ensures n >= 1 ==> r[0] != '0'
  {
    if n < 10 then [DigitChar(n)] else NatToString(n / 10) + [DigitChar(n % 10)]
  }

  /** Reading the rendering back gives the number. */
  lemma {:induction false} NatToStringValue(n: nat)
    ensures DecimalValue(NatToString(n)) == n
  {
    var r := NatToString(n);
    if n >= 10 {
      NatToStringValue(n / 10);
      assert r[..|r| - 1] == NatToString(n / 10);
    }
  }

  /** Distinct numbers render differently. */
  lemma NatToStringInjective(m: nat, n: nat)
    requires NatToString(m) == NatToString(n)
    ensures m == n
  {
    NatToStringValue(m);
    NatToStringValue(n);
  }

  /** `words.join(sep)` */
  function Join(words: seq<string>, sep: string): string
  {
    if |words| == 0 then ""
    else if |words| == 1 then words[0]
    else words[0] + sep + Join(words[1..], sep)
  }
}
