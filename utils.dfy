/**
  The name and path helpers of the seeding scripts (bin/utils.ts): classification
  of a character directory name against the list of HTTP-safe champion names,
  display names, per-word capitalisation, the data-dragon JSON name, and the
  two loops that plan the `.ogg` renames and the `bnk-extract` runs.

  The champion-name list is a parameter `known`; file-system listings are
  parameters too, in the order the listing produced them.
 */
module Utils {
  import opened Wrappers
  import opened Text

  // ---------------------------------------------------------------------------
  // Known champion names
  // ---------------------------------------------------------------------------

  /** Some entry of `known` equals `name` ignoring letter case. */
  ghost predicate IsKnown(name: string, known: seq<string>)
  {
    exists j :: 0 <= j < |known| && Lower(known[j]) == Lower(name)
  }

  function FindKnownFrom(name: string, known: seq<string>, from: nat): (r: Option<nat>)
    decreases |known| - from
    ensures r.Some? ==> from <= r.value < |known| && Lower(known[r.value]) == Lower(name)
    ensures r.Some? ==> forall j :: from <= j < r.value ==> Lower(known[j]) != Lower(name)
    ensures r.None? ==> forall j :: from <= j < |known| ==> Lower(known[j]) != Lower(name)
  {
    if from >= |known| then None
    else if Lower(known[from]) == Lower(name) then Some(from)
    else FindKnownFrom(name, known, from + 1)
  }

  /** `known.find((cn) => cn.toLowerCase() === name.toLowerCase())`, as an index. */
  function FindKnown(name: string, known: seq<string>): (r: Option<nat>)
    ensures r.Some? ==> r.value < |known| && Lower(known[r.value]) == Lower(name)
    ensures r.Some? ==> forall j :: 0 <= j < r.value ==> Lower(known[j]) != Lower(name)
    ensures r.None? <==> !IsKnown(name, known)
  {
    FindKnownFrom(name, known, 0)
  }

  // ---------------------------------------------------------------------------
  // getCharacterType
  // ---------------------------------------------------------------------------

  datatype CharacterType = Champion | TeamFightTactics | SummonersRift | Unknown

  /** A known champion name wins over the case-sensitive "tft" and "sru" substrings. */
  function GetCharacterType(name: string, known: seq<string>): (r: CharacterType)
    ensures r == Champion <==> IsKnown(name, known)
    ensures r == TeamFightTactics <==> !IsKnown(name, known) && Contains(name, "tft")
    ensures r == SummonersRift <==>
              !IsKnown(name, known) && !Contains(name, "tft") && Contains(name, "sru")
    ensures r == Unknown <==>
              !IsKnown(name, known) && !Contains(name, "tft") && !Contains(name, "sru")
  {
    var championType := FindKnown(name, known).Some?;
    var tftType := Contains(name, "tft");
    var summonersRiftType := Contains(name, "sru");
    if championType then Champion
    else if tftType then TeamFightTactics
    else if summonersRiftType then SummonersRift
    else Unknown
  }

  // ---------------------------------------------------------------------------
  // split(/(?=[A-Z])/) and the two joins of its parts
  // ---------------------------------------------------------------------------

  /** `s.split(/(?=[A-Z])/)`: a cut before every upper-case letter but the first character. */
  function SplitBeforeUpper(s: string): (r: seq<string>)
    ensures |r| >= 1
  {
    if s == [] then [""] else WordsFrom(s[1..], [s[0]])
  }

  /** The parts of `cur + rest`, where `cur` is the part being built. */
  function WordsFrom(rest: string, cur: string): (r: seq<string>)
    ensures |r| >= 1
  {
    if rest == [] then [cur]
    else if IsUpper(rest[0]) then [cur] + WordsFrom(rest[1..], [rest[0]])
    else WordsFrom(rest[1..], cur + [rest[0]])
  }

  /** Reference definition: `sep` inserted before each upper-case letter of `t`. */
  function SeparateCapitals(t: string, sep: string): (r: string)
  {
    if t == [] then []
    else (if IsUpper(t[0]) then sep + [t[0]] else [t[0]]) + SeparateCapitals(t[1..], sep)
  }

  /** Reference definition: a space before every upper-case letter that is not the first character. */
  function SpaceBeforeCapitals(s: string): string
  {
    if s == [] then [] else [s[0]] + SeparateCapitals(s[1..], " ")
  }

  lemma {:induction false} JoinWordsFrom(rest: string, cur: string, sep: string)
    ensures Join(WordsFrom(rest, cur), sep) == cur + SeparateCapitals(rest, sep)
  {
    if rest != [] {
      var more := SeparateCapitals(rest[1..], sep);
      if IsUpper(rest[0]) {
        JoinWordsFrom(rest[1..], [rest[0]], sep);
        var tail := WordsFrom(rest[1..], [rest[0]]);
        assert ([cur] + tail)[1..] == tail;
        assert Join([cur] + tail, sep) == cur + sep + ([rest[0]] + more);
        ConcatAssoc(sep, [rest[0]], more);
        ConcatAssoc(cur, sep + [rest[0]], more);
        ConcatAssoc(cur, sep, [rest[0]] + more);
      } else {
        JoinWordsFrom(rest[1..], cur + [rest[0]], sep);
        ConcatAssoc(cur, [rest[0]], more);
      }
    }
  }

  /** Joining the parts with " " puts one space before every non-initial capital. */
  lemma JoinWithSpaces(s: string)
    ensures Join(SplitBeforeUpper(s), " ") == SpaceBeforeCapitals(s)
  {
    if s != [] {
      JoinWordsFrom(s[1..], [s[0]], " ");
    }
  }

  lemma {:induction false} SeparateCapitalsByNothing(t: string)
    ensures SeparateCapitals(t, "") == t
  {
    if t != [] {
      SeparateCapitalsByNothing(t[1..]);
      assert [t[0]] + t[1..] == t;
    }
  }

  /** Joining the parts with "" gives the string back. */
  lemma JoinWithNothing(s: string)
    ensures Join(SplitBeforeUpper(s), "") == s
  {
    if s != [] {
      JoinWordsFrom(s[1..], [s[0]], "");
      SeparateCapitalsByNothing(s[1..]);
      assert [s[0]] + s[1..] == s;
    }
  }

  lemma HeadOfConcat<T>(a: seq<T>, b: seq<T>)
    requires a != []
    ensures (a + b)[0] == a[0] && (a + b)[1..] == a[1..] + b
  {
  }

  lemma ConcatAssoc<T>(a: seq<T>, b: seq<T>, c: seq<T>)
    ensures a + (b + c) == a + b + c
  {
  }

  lemma {:induction false} RemoveCharsAppend(a: string, b: string, cs: set<char>)
    ensures RemoveChars(a + b, cs) == RemoveChars(a, cs) + RemoveChars(b, cs)
  {
    if a == [] {
      assert a + b == b;
    } else {
      RemoveCharsAppend(a[1..], b, cs);
      var h: string := if a[0] in cs then [] else [a[0]];
      var ra, rb := RemoveChars(a[1..], cs), RemoveChars(b, cs);
      HeadOfConcat(a, b);
      assert RemoveChars(a + b, cs) == h + (ra + rb);
      ConcatAssoc(h, ra, rb);
    }
  }

  lemma {:induction false} SeparateCapitalsRemoveSpaces(t: string)
    ensures RemoveChars(SeparateCapitals(t, " "), {' '}) == RemoveChars(t, {' '})
  {
    if t != [] {
      SeparateCapitalsRemoveSpaces(t[1..]);
      var head := if IsUpper(t[0]) then " " + [t[0]] else [t[0]];
      RemoveCharsAppend(head, SeparateCapitals(t[1..], " "), {' '});
      RemoveCharsAppend([t[0]], t[1..], {' '});
      assert [t[0]] + t[1..] == t;
      if IsUpper(t[0]) {
        RemoveCharsAppend(" ", [t[0]], {' '});
      }
    }
  }

  /** Deleting the spaces of a display name gives back the entry with its own spaces deleted;
      for an entry without spaces, the entry itself. */
  lemma DisplayNameRemoveSpaces(s: string)
    ensures RemoveChars(SpaceBeforeCapitals(s), {' '}) == RemoveChars(s, {' '})
    ensures ' ' !in s ==> RemoveChars(SpaceBeforeCapitals(s), {' '}) == s
  {
    if s != [] {
      SeparateCapitalsRemoveSpaces(s[1..]);
      RemoveCharsAppend([s[0]], SeparateCapitals(s[1..], " "), {' '});
      RemoveCharsAppend([s[0]], s[1..], {' '});
      assert [s[0]] + s[1..] == s;
    }
    if ' ' !in s {
      RemoveCharsNone(s, {' '});
    }
  }

  lemma {:induction false} RemoveCharsAll(s: string, cs: set<char>)
    requires forall i :: 0 <= i < |s| ==> s[i] in cs
    ensures RemoveChars(s, cs) == []
  {
    if s != [] {
      RemoveCharsAll(s[1..], cs);
    }
  }

  lemma {:induction false} RemoveCharsNone(s: string, cs: set<char>)
    requires forall i :: 0 <= i < |s| ==> s[i] !in cs
    ensures RemoveChars(s, cs) == s
  {
    if s != [] {
      RemoveCharsNone(s[1..], cs);
      assert [s[0]] + s[1..] == s;
    }
  }

  // ---------------------------------------------------------------------------
  // getCharacterDisplayName
  // ---------------------------------------------------------------------------

  /** "Jarvan IV" for "jarvaniv" in any case; otherwise the first matching known name with a
      space before each non-initial capital; `None` (undefined) for an unknown name. */
  function GetCharacterDisplayName(name: string, known: seq<string>): (r: Option<string>)
    ensures Lower(name) == "jarvaniv" ==> r == Some("Jarvan IV")
    ensures Lower(name) != "jarvaniv" ==> (r.Some? <==> IsKnown(name, known))
    ensures Lower(name) != "jarvaniv" && r.Some? ==>
              exists j :: 0 <= j < |known| && Lower(known[j]) == Lower(name)
                && (forall i :: 0 <= i < j ==> Lower(known[i]) != Lower(name))
                && r.value == SpaceBeforeCapitals(known[j])
  {
    if Lower(name) == "jarvaniv" then Some("Jarvan IV")
    else
      match FindKnown(name, known)
      case None => None
      case Some(j) =>
        JoinWithSpaces(known[j]);
        Some(Join(SplitBeforeUpper(known[j]), " "))
  }

  // ---------------------------------------------------------------------------
  // capitalize
  // ---------------------------------------------------------------------------

  function UpperFirst(w: string): string
  {
    if w == [] then [] else [UpperChar(w[0])] + w[1..]
  }

  /** The `reduce` over the words: each word with its first character upper-cased, then " ". */
  function CapitalizedWords(words: seq<string>): string
  {
    if words == [] then "" else UpperFirst(words[0]) + " " + CapitalizedWords(words[1..])
  }

  /** Reference definition: the characters that start a word upper-cased; `first` says whether
      the first character of `s` starts a word. */
  function MarkWordStarts(s: string, first: bool): (r: string)
    ensures |r| == |s|
  {
    if s == [] then [] else [if first then UpperChar(s[0]) else s[0]] + MarkWordStarts(s[1..], s[0] == ' ')
  }

  lemma {:induction false} MarkWordStartsAt(s: string, first: bool, i: nat)
    requires i < |s|
    ensures MarkWordStarts(s, first)[i]
         == if (i == 0 && first) || (i > 0 && s[i - 1] == ' ') then UpperChar(s[i]) else s[i]
  {
    if i > 0 {
      MarkWordStartsAt(s[1..], s[0] == ' ', i - 1);
    }
  }

  lemma {:induction false} CapitalizedSplit(s: string)
    ensures CapitalizedWords(Split(s, ' ')) == MarkWordStarts(s, true) + " "
    ensures Split(s, ' ')[0] + " " + CapitalizedWords(Split(s, ' ')[1..])
         == MarkWordStarts(s, false) + " "
  {
    if s == [] {
      assert Split(s, ' ') == [""];
    } else {
      CapitalizedSplit(s[1..]);
      if s[0] == ' ' {
        CapitalizedSplitAtSpace(s);
      } else {
        CapitalizedSplitInWord(s);
      }
    }
  }

  lemma CapitalizedSplitAtSpace(s: string)
    requires s != [] && s[0] == ' '
    requires CapitalizedWords(Split(s[1..], ' ')) == MarkWordStarts(s[1..], true) + " "
    ensures CapitalizedWords(Split(s, ' ')) == MarkWordStarts(s, true) + " "
    ensures Split(s, ' ')[0] + " " + CapitalizedWords(Split(s, ' ')[1..])
         == MarkWordStarts(s, false) + " "
  {
    var rest := Split(s[1..], ' ');
    var w := Split(s, ' ');
    assert w == [""] + rest;
    assert w[1..] == rest;
  }

  lemma CapitalizedSplitInWord(s: string)
    requires s != [] && s[0] != ' '
    requires Split(s[1..], ' ')[0] + " " + CapitalizedWords(Split(s[1..], ' ')[1..])
          == MarkWordStarts(s[1..], false) + " "
    ensures CapitalizedWords(Split(s, ' ')) == MarkWordStarts(s, true) + " "
    ensures Split(s, ' ')[0] + " " + CapitalizedWords(Split(s, ' ')[1..])
         == MarkWordStarts(s, false) + " "
  {
    var c, t := s[0], s[1..];
    var rest := Split(t, ' ');
    var w := Split(s, ' ');
    assert w[0] == [c] + rest[0] && w[1..] == rest[1..] by {
      assert w == [[c] + rest[0]] + rest[1..];
    }
    var words := CapitalizedWords(rest[1..]);
    var marked := MarkWordStarts(t, false);
    assert rest[0] + " " + words == marked + " ";
    assert UpperFirst(w[0]) == [UpperChar(c)] + rest[0];
    ConsAssoc(UpperChar(c), rest[0], " ", words);
    ConsAssoc(c, rest[0], " ", words);
    ConsAssoc(UpperChar(c), marked, " ", []);
    ConsAssoc(c, marked, " ", []);
  }

  /** Regrouping `[x] + a + b + c`. */
  lemma ConsAssoc<T>(x: T, a: seq<T>, b: seq<T>, c: seq<T>)
    ensures [x] + a + b + c == [x] + (a + b + c)
    ensures [x] + a + b == [x] + (a + b)
  {
  }

  lemma UpperCharWhitespace(c: char)
    requires IsWhitespace(UpperChar(c))
    ensures IsWhitespace(c)
  {
  }

  /** `capitalize(str)`: "" for null, undefined or ""; otherwise every character that begins a
      " "-separated word upper-cased, everything else unchanged, trailing white space removed. */
  function Capitalize(str: Option<string>): (r: string)
    ensures str.None? || str == Some("") ==> r == ""
    ensures str.Some? ==> |r| <= |str.value|
    ensures str.Some? ==> forall i :: 0 <= i < |r| ==>
              r[i] == if i == 0 || str.value[i - 1] == ' ' then UpperChar(str.value[i]) else str.value[i]
    ensures str.Some? ==> forall i :: |r| <= i < |str.value| ==> IsWhitespace(str.value[i])
    ensures r == [] || !IsWhitespace(r[|r| - 1])
  {
    if str.None? || str.value == "" then ""
    else
      var s := str.value;
      CapitalizedSplit(s);
      var marked := MarkWordStarts(s, true);
      assert TrimEnd(marked + " ") == TrimEnd(marked) by {
        assert (marked + " ")[..|marked|] == marked;
      }
      forall i | 0 <= i < |s| ensures marked[i]
          == if i == 0 || s[i - 1] == ' ' then UpperChar(s[i]) else s[i] {
        MarkWordStartsAt(s, true, i);
      }
      forall i | |TrimEnd(marked)| <= i < |s| ensures IsWhitespace(s[i]) {
        assert IsWhitespace(marked[i]);
        if i == 0 || s[i - 1] == ' ' {
          UpperCharWhitespace(s[i]);
        }
      }
      TrimEnd(CapitalizedWords(Split(s, ' ')))
  }

  // ---------------------------------------------------------------------------
  // getJsonName
  // ---------------------------------------------------------------------------

  /** The characters `/[.'& ]/g` removes. */
  const NotHttpSafe: set<char> := {'.', '\'', '&', ' '}

  /** The name with '.', ''', '&' and ' ' removed, then the first "Willump" and the first
      "Glasc" removed, then lower-cased. */
  function HttpSafeName(name: string): (r: string)
    ensures |r| <= |name|
    ensures forall i :: 0 <= i < |r| ==> r[i] !in NotHttpSafe && !IsUpper(r[i])
  {
    var stripped := RemoveChars(name, NotHttpSafe);
    var noWillump := ReplaceFirst(stripped, "Willump", "");
    RemoveFirstAvoids(stripped, "Willump", NotHttpSafe);
    var noGlasc := ReplaceFirst(noWillump, "Glasc", "");
    RemoveFirstAvoids(noWillump, "Glasc", NotHttpSafe);
    Lower(noGlasc)
  }

  /** A name with none of the removed characters and neither "Willump" nor "Glasc" is only
      lower-cased. */
  lemma HttpSafeNamePlain(name: string)
    requires forall i :: 0 <= i < |name| ==> name[i] !in NotHttpSafe
    requires !Contains(name, "Willump") && !Contains(name, "Glasc")
    ensures HttpSafeName(name) == Lower(name)
  {
    RemoveCharsNone(name, NotHttpSafe);
  }

  /** Replacing the first occurrence of an appended pattern that occurs only there by "". */
  lemma RemoveAppended(a: string, pat: string)
    requires pat != [] && !Contains(a, pat)
    requires pat[0] !in pat[1..]
    ensures ReplaceFirst(a + pat, pat, "") == a
  {
    FirstFoundAtEnd(a, pat);
    var r := ReplaceFirst(a + pat, pat, "");
    assert r[..|a|] == (a + pat)[..|a|] == a;
  }

  lemma StripSuffix(a: string, suffix: string, kept: string)
    requires forall i :: 0 <= i < |a| ==> a[i] !in NotHttpSafe
    requires RemoveChars(suffix, NotHttpSafe) == kept
    ensures RemoveChars(a + suffix, NotHttpSafe) == a + kept
  {
    RemoveCharsAppend(a, suffix, NotHttpSafe);
    RemoveCharsNone(a, NotHttpSafe);
  }

  /** The letters of "Willump" and "Glasc": none is removed, and neither word's first letter
      recurs in it; "Glasc" starts with a letter "Willump" lacks. */
  lemma SuffixLetters()
    ensures forall i :: 0 <= i < |"Willump"| ==> "Willump"[i] !in NotHttpSafe
    ensures forall i :: 0 <= i < |"Glasc"| ==> "Glasc"[i] !in NotHttpSafe
    ensures "Willump"[0] !in "Willump"[1..]
    ensures "Glasc"[0] !in "Glasc"[1..] && "Glasc"[0] !in "Willump"
  {
    var w, g := "Willump", "Glasc";
    assert w[0] == 'W' && w[1] == 'i' && w[2] == 'l' && w[3] == 'l' && w[4] == 'u' && w[5] == 'm' && w[6] == 'p';
    assert g[0] == 'G' && g[1] == 'l' && g[2] == 'a' && g[3] == 's' && g[4] == 'c';
    assert w[1..] == "illump" && g[1..] == "lasc";
  }

  lemma WillumpLiterals()
    ensures RemoveChars(" & Willump", NotHttpSafe) == "Willump"
    ensures "Willump"[0] !in "Willump"[1..]
  {
    SuffixLetters();
    assert " & Willump" == " & " + "Willump";
    RemoveCharsAppend(" & ", "Willump", NotHttpSafe);
    RemoveCharsNone("Willump", NotHttpSafe);
    assert RemoveChars(" & ", NotHttpSafe) == [];
  }

  lemma GlascLiterals()
    ensures RemoveChars(" Glasc", NotHttpSafe) == "Glasc"
    ensures "Glasc"[0] !in "Glasc"[1..]
    ensures !Contains("Glasc", "Willump") && "Glasc"[0] !in "Willump"
  {
    SuffixLetters();
    assert " Glasc" == " " + "Glasc";
    RemoveCharsAppend(" ", "Glasc", NotHttpSafe);
    RemoveCharsNone("Glasc", NotHttpSafe);
    assert RemoveChars(" ", NotHttpSafe) == [];
  }

  /** A name followed by " & Willump" is the name lower-cased, as for "Nunu & Willump". */
  lemma HttpSafeNameWithWillump(a: string)
    requires forall i :: 0 <= i < |a| ==> a[i] !in NotHttpSafe
    requires !Contains(a, "Willump") && !Contains(a, "Glasc")
    ensures HttpSafeName(a + " & Willump") == Lower(a)
  {
    WillumpLiterals();
    StripSuffix(a, " & Willump", "Willump");
    RemoveAppended(a, "Willump");
  }

  /** A name followed by " Glasc" is the name lower-cased, as for "Renata Glasc". */
  lemma HttpSafeNameWithGlasc(a: string)
    requires forall i :: 0 <= i < |a| ==> a[i] !in NotHttpSafe
    requires !Contains(a, "Willump") && !Contains(a, "Glasc")
    ensures HttpSafeName(a + " Glasc") == Lower(a)
  {
    GlascLiterals();
    StripSuffix(a, " Glasc", "Glasc");
    NotAcross(a, "Glasc", "Willump");
    RemoveAppended(a, "Glasc");
  }

  lemma ExampleLetters()
    ensures forall i :: 0 <= i < |"Nunu"| ==> "Nunu"[i] !in NotHttpSafe
    ensures forall i :: 0 <= i < |"Renata"| ==> "Renata"[i] !in NotHttpSafe
    ensures Lower("Nunu") == "nunu" && Lower("Renata") == "renata"
  {
    var n, r := "Nunu", "Renata";
    assert n[0] == 'N' && n[1] == 'u' && n[2] == 'n' && n[3] == 'u';
    assert r[0] == 'R' && r[1] == 'e' && r[2] == 'n' && r[3] == 'a' && r[4] == 't' && r[5] == 'a';
    assert Lower(n) == "nunu" && Lower(r) == "renata";
  }

  lemma ExampleParts()
    ensures "Nunu & Willump" == "Nunu" + " & Willump"
    ensures "Renata Glasc" == "Renata" + " Glasc"
  {
  }

  /** "Nunu & Willump" is "nunu" in the champion list. */
  lemma HttpSafeNameOfNunu()
    ensures HttpSafeName("Nunu & Willump") == "nunu"
  {
    ExampleLetters();
    assert !Contains("Nunu", "Willump") && !Contains("Nunu", "Glasc");
    ExampleParts();
    HttpSafeNameWithWillump("Nunu");
  }

  /** "Renata Glasc" is "renata" in the champion list. */
  lemma HttpSafeNameOfRenata()
    ensures HttpSafeName("Renata Glasc") == "renata"
  {
    ExampleLetters();
    assert !Contains("Renata", "Willump");
    assert !Contains("Renata", "Glasc") by {
      forall j: nat ensures !IsAt("Renata", "Glasc", j) {
        if j + 5 <= 6 {
          assert "Renata"[j] != 'G';
        }
      }
    }
    ExampleParts();
    HttpSafeNameWithGlasc("Renata");
  }

  lemma LowerOfLower(s: string)
    requires forall i :: 0 <= i < |s| ==> !IsUpper(s[i])
    ensures Lower(s) == s
  {
  }

  /** `getJsonName(name)`: the first known name equal, ignoring case, to the HTTP-safe form
      of `name`, returned unchanged; `None` (undefined) when there is none. */
  function GetJsonName(name: string, known: seq<string>): (r: Option<string>)
    ensures r.None? <==> forall j :: 0 <= j < |known| ==> Lower(known[j]) != HttpSafeName(name)
    ensures r.Some? ==>
              exists j :: 0 <= j < |known| && r.value == known[j] && Lower(known[j]) == HttpSafeName(name)
                && forall i :: 0 <= i < j ==> Lower(known[i]) != HttpSafeName(name)
  {
    var httpSafeName := HttpSafeName(name);
    LowerOfLower(httpSafeName);
    var found := FindKnownFrom(httpSafeName, known, 0);
    if found.None? then
      None
    else
      var j := found.value;
      JoinWithNothing(known[j]);
      assert Lower(known[j]) == httpSafeName;
      Some(Join(SplitBeforeUpper(known[j]), ""))
  }

  // ---------------------------------------------------------------------------
  // formatVoiceLineFileName
  // ---------------------------------------------------------------------------

  /** What `formatVoiceLineFileName` gives: a new path, `undefined`, or the TypeError thrown
      when the part after the "skin" part does not exist (`namedDir.replace` of undefined). */
  datatype VoiceLineName = Renamed(path: string) | NoName | NamedDirMissing

  /** Index of the first part that contains "skin" (`fileParts.find(...)`). */
  function FirstSkinPart(parts: seq<string>, from: nat): (r: Option<nat>)
    decreases |parts| - from
    ensures r.Some? ==> from <= r.value < |parts| && Contains(parts[r.value], "skin")
    ensures r.Some? ==> forall k :: from <= k < r.value ==> !Contains(parts[k], "skin")
    ensures r.None? ==> forall k :: from <= k < |parts| ==> !Contains(parts[k], "skin")
  {
    if from >= |parts| then None
    else if Contains(parts[from], "skin") then Some(from)
    else FirstSkinPart(parts, from + 1)
  }

  /** `parts.indexOf(item)` */
  function PartIndex(parts: seq<string>, item: string, from: nat): (r: Option<nat>)
    decreases |parts| - from
    ensures r.Some? ==> from <= r.value < |parts| && parts[r.value] == item
    ensures r.Some? ==> forall k :: from <= k < r.value ==> parts[k] != item
    ensures r.None? ==> forall k :: from <= k < |parts| ==> parts[k] != item
  {
    if from >= |parts| then None
    else if parts[from] == item then Some(from)
    else PartIndex(parts, item, from + 1)
  }

  /** `indexOf` finds the first "skin" part where `find` found it. */
  lemma FirstSkinPartIndex(parts: seq<string>, k: nat)
    requires FirstSkinPart(parts, 0) == Some(k)
    ensures PartIndex(parts, parts[k], 0) == Some(k)
  {
  }

  /** The end of the run of digits that starts at `j`. */
  function DigitRunEnd(s: string, j: nat): (e: nat)
    requires j <= |s|
    decreases |s| - j
    ensures j <= e <= |s| && (e == |s| || !IsDigit(s[e]))
    ensures forall k :: j <= k < e ==> IsDigit(s[k])
  {
    if j < |s| && IsDigit(s[j]) then DigitRunEnd(s, j + 1) else j
  }

  /** The first index at or after `from` where `/Skin\d+/` matches. */
  function SkinNumberFrom(s: string, from: nat): (r: Option<nat>)
    decreases |s| - from
    ensures r.Some? ==> from <= r.value && IsAt(s, "Skin", r.value)
                        && r.value + 4 < |s| && IsDigit(s[r.value + 4])
  {
    if from + 4 >= |s| then None
    else if s[from..from + 4] == "Skin" && IsDigit(s[from + 4]) then Some(from)
    else SkinNumberFrom(s, from + 1)
  }

  /** `s.replace(/Skin\d+/, "")`: the first "Skin" followed by digits is removed with all its digits. */
  function RemoveSkinNumber(s: string): (r: string)
    ensures |r| <= |s|
  {
    match SkinNumberFrom(s, 0)
    case None => s
    case Some(i) => s[..i] + s[DigitRunEnd(s, i + 4)..]
  }

  /** `champName.substring(0, 1).toUpperCase() + champName.substring(1).toLowerCase()` */
  function CapitalizedChampName(champName: string): string
  {
    if champName == [] then [] else [UpperChar(champName[0])] + Lower(champName[1..])
  }

  /** The sound's name cut out of the directory name: the first "Play_sfx_" and the first
      "Play_vo_" removed, then every occurrence of the capitalised champion name, then the first
      "Skin<digits>", then every '_'. */
  function CleanVoiceLineName(namedDir: string, champName: string): (r: string)
    ensures '_' !in r
  {
    var noSfx := ReplaceFirst(namedDir, "Play_sfx_", "");
    var noVo := ReplaceFirst(noSfx, "Play_vo_", "");
    var noChamp := RemoveEvery(noVo, CapitalizedChampName(champName));
    var noSkin := RemoveSkinNumber(noChamp);
    RemoveChars(noSkin, {'_'})
  }

  /** The suffix `${counter}` preceded by a space, appended only for a non-zero counter. */
  function CounterSuffix(counter: nat): (r: string)
    ensures counter == 0 <==> r == ""
  {
    if counter != 0 then " " + NatToString(counter) else ""
  }

  /** Where a voice line's new name goes: the path up to the first occurrence of the part that
      follows the first "skin" part (`namedDir`), and that part; or why there is none. */
  datatype VoiceLineTarget = Target(dirPrefix: string, namedDir: string) | NoTarget | TargetMissing

  /** The path analysis of `formatVoiceLineFileName`, which does not depend on the counter. */
  function VoiceLineTargetOf(filePath: string): (r: VoiceLineTarget)
    ensures r.Target? ==> |r.dirPrefix| <= |filePath| && r.dirPrefix == filePath[..|r.dirPrefix|]
                          && IsAt(filePath, r.namedDir, |r.dirPrefix|)
    ensures r.Target? ==>
              var parts := Split(filePath, '/');
              && FirstSkinPart(parts, 0).Some?
              && 0 < FirstSkinPart(parts, 0).value < |parts| - 1
              && r.namedDir == parts[FirstSkinPart(parts, 0).value + 1]
              && IndexOf(filePath, r.namedDir) == Some(|r.dirPrefix|)
  {
    var fileParts := Split(filePath, '/');
    match FirstSkinPart(fileParts, 0)
    case None => NoTarget
    case Some(k) =>
      var item := fileParts[k];
      FirstSkinPartIndex(fileParts, k);
      var nameIndex := PartIndex(fileParts, item, 0).value;
      if nameIndex == 0 then NoTarget
      else if nameIndex + 1 >= |fileParts| then TargetMissing
      else
        var namedDir := fileParts[nameIndex + 1];
        SplitPartOccurs(filePath, '/', nameIndex + 1);
        var startIndex := IndexOf(filePath, namedDir).value;
        Target(filePath[..startIndex], namedDir)
  }

  /** Which outcome the path analysis has, by the index of the first "skin" part. */
  lemma VoiceLineTargetShape(filePath: string)
    ensures var parts := Split(filePath, '/');
      var f := FirstSkinPart(parts, 0);
      && (f.None? || f.value == 0 <==> VoiceLineTargetOf(filePath).NoTarget?)
      && (f.Some? && f.value != 0 && f.value == |parts| - 1 <==> VoiceLineTargetOf(filePath).TargetMissing?)
  {
    var parts := Split(filePath, '/');
    match FirstSkinPart(parts, 0)
    case None =>
    case Some(k) =>
      VoiceLineTargetAt(filePath, k);
  }

  lemma VoiceLineTargetAt(filePath: string, k: nat)
    requires FirstSkinPart(Split(filePath, '/'), 0) == Some(k)
    ensures k == 0 ==> VoiceLineTargetOf(filePath).NoTarget?
    ensures k != 0 && k == |Split(filePath, '/')| - 1 ==> VoiceLineTargetOf(filePath).TargetMissing?
    ensures k != 0 && k < |Split(filePath, '/')| - 1 ==> VoiceLineTargetOf(filePath).Target?
  {
    FirstSkinPartIndex(Split(filePath, '/'), k);
  }

  /** No name is produced when no part of the path contains "skin" or the first part does. */
  lemma VoiceLineNoTarget(filePath: string)
    ensures var parts := Split(filePath, '/');
      VoiceLineTargetOf(filePath).NoTarget? <==>
        (forall k :: 0 <= k < |parts| ==> !Contains(parts[k], "skin")) || Contains(parts[0], "skin")
  {
    VoiceLineTargetShape(filePath);
    var parts := Split(filePath, '/');
    var f := FirstSkinPart(parts, 0);
    if f.Some? && f.value != 0 {
      assert !Contains(parts[0], "skin");
      assert Contains(parts[f.value], "skin");
    }
  }

  /** The part after the first "skin" part is missing exactly when only the last part contains "skin". */
  lemma VoiceLineTargetMissing(filePath: string)
    ensures var parts := Split(filePath, '/');
      VoiceLineTargetOf(filePath).TargetMissing? <==>
        && !Contains(parts[0], "skin")
        && Contains(parts[|parts| - 1], "skin")
        && forall k :: 0 <= k < |parts| - 1 ==> !Contains(parts[k], "skin")
  {
    VoiceLineTargetShape(filePath);
    OnlyLastSkinPart(Split(filePath, '/'));
  }

  /** The first "skin" part is the last part, and not the first, exactly when only the last
      part contains "skin". */
  lemma OnlyLastSkinPart(parts: seq<string>)
    requires |parts| >= 1
    ensures var f := FirstSkinPart(parts, 0);
      f.Some? && f.value != 0 && f.value == |parts| - 1 <==>
        && !Contains(parts[0], "skin")
        && Contains(parts[|parts| - 1], "skin")
        && forall k :: 0 <= k < |parts| - 1 ==> !Contains(parts[k], "skin")
  {
    var last := |parts| - 1;
    var f := FirstSkinPart(parts, 0);
    if f.None? {
      assert !Contains(parts[last], "skin");
    } else if f.value != 0 && f.value < last {
      assert Contains(parts[f.value], "skin");
    }
  }

  /** The pieces of a path `a + (b + c) + d` can be cut back out of it. */
  lemma PathPieces(a: string, b: string, c: string, d: string)
    ensures var p := a + (b + c) + d;
      && |p| == |a| + |b| + |c| + |d|
      && p[..|a|] == a
      && p[|a|..|p| - |d| - |c|] == b
      && p[|p| - |d|..] == d
  {
    var p := a + (b + c) + d;
    assert p[|a|..|p| - |d| - |c|] == b;
  }

  /** `formatVoiceLineFileName(filePath, champName, counter)`: `NoName` (undefined) when no part
      of the path contains "skin" or the first such part is the first part; `NamedDirMissing`
      (a TypeError) when that part is the last one; otherwise the path up to the first occurrence
      of the next part, then the cleaned name, " <counter>" when the counter is not 0, and ".ogg". */
  function FormatVoiceLineFileName(filePath: string, champName: string, counter: nat): (r: VoiceLineName)
    ensures r.NoName? <==> VoiceLineTargetOf(filePath).NoTarget?
    ensures r.NamedDirMissing? <==> VoiceLineTargetOf(filePath).TargetMissing?
    ensures r.Renamed? ==>
              var keep := |VoiceLineTargetOf(filePath).dirPrefix|;
              && keep + |CounterSuffix(counter)| + 4 <= |r.path|
              && r.path[..keep] == filePath[..keep]
              && r.path[|r.path| - 4..] == ".ogg"
              && '_' !in r.path[keep..|r.path| - 4 - |CounterSuffix(counter)|]
    ensures r.Renamed? ==>
              var t := VoiceLineTargetOf(filePath);
              r.path == t.dirPrefix + CleanVoiceLineName(t.namedDir, champName) + CounterSuffix(counter) + ".ogg"
  {
    match VoiceLineTargetOf(filePath)
    case NoTarget => NoName
    case TargetMissing => NamedDirMissing
    case Target(dirPrefix, namedDir) =>
      var newFileName := CleanVoiceLineName(namedDir, champName) + CounterSuffix(counter);
      var path := dirPrefix + newFileName + ".ogg";
      ConcatAssoc(dirPrefix, CleanVoiceLineName(namedDir, champName), CounterSuffix(counter));
      PathPieces(dirPrefix, CleanVoiceLineName(namedDir, champName), CounterSuffix(counter), ".ogg");
      Renamed(path)
  }

  lemma RegroupSuffix(a: string, b: string, n: string, e: string)
    ensures a + (b + (" " + n)) + e == a + b + " " + n + e
  {
  }

  /** A non-zero counter only inserts " <counter>" before ".ogg"; whether a name is produced at all
      does not depend on the counter. */
  lemma VoiceLineCounterSuffix(filePath: string, champName: string, counter: nat)
    ensures FormatVoiceLineFileName(filePath, champName, counter).Renamed?
        <==> FormatVoiceLineFileName(filePath, champName, 0).Renamed?
    ensures var plain := FormatVoiceLineFileName(filePath, champName, 0);
      plain.Renamed? && counter != 0 ==>
        FormatVoiceLineFileName(filePath, champName, counter).path
          == plain.path[..|plain.path| - 4] + " " + NatToString(counter) + ".ogg"
  {
    var t := VoiceLineTargetOf(filePath);
    if t.Target? && counter != 0 {
      var c := CleanVoiceLineName(t.namedDir, champName);
      var p := t.dirPrefix + c;
      var plain := FormatVoiceLineFileName(filePath, champName, 0);
      var numbered := FormatVoiceLineFileName(filePath, champName, counter);
      assert CounterSuffix(0) == "";
      assert plain.path == t.dirPrefix + (c + "") + ".ogg";
      assert c + "" == c;
      assert plain.path[..|p|] == p;
      assert numbered.path == t.dirPrefix + (c + (" " + NatToString(counter))) + ".ogg";
      RegroupSuffix(t.dirPrefix, c, NatToString(counter), ".ogg");
    }
  }

  /** A name without '_' keeps none after capitalisation. */
  lemma CapitalizedNoUnderscore(champName: string)
    requires '_' !in champName
    ensures champName != [] ==> CapitalizedChampName(champName) != []
    ensures '_' !in CapitalizedChampName(champName)
  {
    if champName != [] {
      var c := CapitalizedChampName(champName);
      forall i | 0 <= i < |c| ensures c[i] != '_' {
        if i == 0 {
          assert c[0] == UpperChar(champName[0]);
        } else {
          assert c[i] == LowerChar(champName[i]);
        }
      }
    }
  }

  /** The only '_' of `c + "Skin" + d + "_" + x` is the one before `x`. */
  lemma UnderscoreBeforeName(c: string, d: string, x: string)
    requires '_' !in c && '_' !in x
    requires forall i :: 0 <= i < |d| ==> IsDigit(d[i])
    ensures var t := c + ("Skin" + d + "_" + x);
      forall i :: 0 <= i < |t| && t[i] == '_' ==> i == |c| + 4 + |d|
  {
    var t := c + ("Skin" + d + "_" + x);
    var q := |c| + 4 + |d|;
    forall i | 0 <= i < |t| && i != q
      ensures t[i] != '_'
    {
      if i < |c| {
        assert t[i] == c[i];
      } else if i < |c| + 4 {
        assert t[i] == "Skin"[i - |c|];
      } else if i < q {
        assert t[i] == d[i - |c| - 4];
      } else {
        assert t[i] == x[i - q - 1];
      }
    }
  }

  /** Removing every champion name from the champion name and a rest without it leaves the rest. */
  lemma ChampionRemoved(c: string, t: string)
    requires c != [] && !Contains(t, c)
    ensures RemoveEvery(c + t, c) == t
  {
    assert (c + t)[..|c|] == c && (c + t)[|c|..] == t;
    RemoveEveryAbsent(t, c);
  }

  /** The "Skin<digits>" at the front goes, with all its digits, up to the '_'. */
  lemma SkinNumberRemoved(d: string, x: string)
    requires d != [] && forall i :: 0 <= i < |d| ==> IsDigit(d[i])
    ensures RemoveSkinNumber("Skin" + d + "_" + x) == ['_'] + x
  {
    var t := "Skin" + d + "_" + x;
    var head := "Skin" + d;
    var tail := ['_'] + x;
    assert t == head + tail;
    assert t[..4] == "Skin" && t[4] == d[0];
    assert SkinNumberFrom(t, 0) == Some(0);
    assert t[|head|..] == tail;
    assert t[4 + |d|] == '_';
    forall k | 4 <= k < 4 + |d|
      ensures IsDigit(t[k])
    {
      assert t[k] == head[k] == d[k - 4];
    }
    assert DigitRunEnd(t, 4) == 4 + |d|;
    assert t[..0] + t[4 + |d|..] == tail;
  }

  lemma UnderscoreRemoved(x: string)
    requires '_' !in x
    ensures RemoveChars(['_'] + x, {'_'}) == x
  {
    assert (['_'] + x)[1..] == x;
    RemoveCharsNone(x, {'_'});
  }

  /** What is left of a directory name once its "Play_..._" prefix is gone: the champion name,
      then "Skin<digits>_", then the sound's name. */
  lemma CleanedTail(champName: string, d: string, x: string)
    requires champName != [] && '_' !in champName && '_' !in x
    requires d != [] && forall i :: 0 <= i < |d| ==> IsDigit(d[i])
    requires !Contains("Skin" + d + "_" + x, CapitalizedChampName(champName))
    ensures var c := CapitalizedChampName(champName);
      RemoveChars(RemoveSkinNumber(RemoveEvery(c + ("Skin" + d + "_" + x), c)), {'_'}) == x
  {
    CapitalizedNoUnderscore(champName);
    ChampionRemoved(CapitalizedChampName(champName), "Skin" + d + "_" + x);
    SkinNumberRemoved(d, x);
    UnderscoreRemoved(x);
  }

  /** "Play_sfx_" needs two '_' four apart, which "Play_vo_" followed by such a tail lacks. */
  lemma NoSfxInVoName(c: string, d: string, x: string)
    requires '_' !in c && '_' !in x
    requires forall i :: 0 <= i < |d| ==> IsDigit(d[i])
    ensures !Contains("Play_vo_" + (c + ("Skin" + d + "_" + x)), "Play_sfx_")
  {
    var u := c + ("Skin" + d + "_" + x);
    var s := "Play_vo_" + u;
    UnderscoreBeforeName(c, d, x);
    assert forall k :: 8 <= k < |s| ==> s[k] == u[k - 8];
    forall j: nat ensures !IsAt(s, "Play_sfx_", j) {
      if j + 9 <= |s| {
        assert s[j + 8] != '_' || s[j + 4] != '_' by {
          if j + 4 < 8 {
            assert s[j + 4] == "Play_vo_"[j + 4];
          }
        }
        assert s[j..j + 9][4] == s[j + 4] && s[j..j + 9][8] == s[j + 8];
      }
    }
  }

  /** "Play_vo_" needs two '_', and the tail has one. */
  lemma NoVoInTail(c: string, d: string, x: string)
    requires '_' !in c && '_' !in x
    requires forall i :: 0 <= i < |d| ==> IsDigit(d[i])
    ensures !Contains(c + ("Skin" + d + "_" + x), "Play_vo_")
  {
    var u := c + ("Skin" + d + "_" + x);
    UnderscoreBeforeName(c, d, x);
    forall j: nat ensures !IsAt(u, "Play_vo_", j) {
      if j + 8 <= |u| {
        assert u[j + 4] != '_' || u[j + 7] != '_';
        assert u[j..j + 8][4] == u[j + 4] && u[j..j + 8][7] == u[j + 7];
      }
    }
  }

  /** A voice-line directory "Play_vo_<Champion>Skin<digits>_<name>" gives `name`, when the
      champion name does not occur again after it. */
  lemma CleanVoiceLineOfVo(champName: string, d: string, x: string)
    requires champName != [] && '_' !in champName && '_' !in x
    requires d != [] && forall i :: 0 <= i < |d| ==> IsDigit(d[i])
    requires !Contains("Skin" + d + "_" + x, CapitalizedChampName(champName))
    ensures CleanVoiceLineName("Play_vo_" + CapitalizedChampName(champName) + "Skin" + d + "_" + x, champName) == x
  {
    var c := CapitalizedChampName(champName);
    var u := c + ("Skin" + d + "_" + x);
    assert "Play_vo_" + c + "Skin" + d + "_" + x == "Play_vo_" + u;
    CapitalizedNoUnderscore(champName);
    NoSfxInVoName(c, d, x);
    ReplaceAtStart("Play_vo_", u);
    CleanedTail(champName, d, x);
  }

  /** A sound-effect directory "Play_sfx_<Champion>Skin<digits>_<name>" gives `name` too. */
  lemma CleanVoiceLineOfSfx(champName: string, d: string, x: string)
    requires champName != [] && '_' !in champName && '_' !in x
    requires d != [] && forall i :: 0 <= i < |d| ==> IsDigit(d[i])
    requires !Contains("Skin" + d + "_" + x, CapitalizedChampName(champName))
    ensures CleanVoiceLineName("Play_sfx_" + CapitalizedChampName(champName) + "Skin" + d + "_" + x, champName) == x
  {
    var c := CapitalizedChampName(champName);
    var u := c + ("Skin" + d + "_" + x);
    assert "Play_sfx_" + c + "Skin" + d + "_" + x == "Play_sfx_" + u;
    CapitalizedNoUnderscore(champName);
    ReplaceAtStart("Play_sfx_", u);
    NoVoInTail(c, d, x);
    CleanedTail(champName, d, x);
  }

  // ---------------------------------------------------------------------------
  // renameOggFiles: the per-directory counter loop
  // ---------------------------------------------------------------------------

  function Prepend<T>(done: seq<T>, r: Run<T>): Run<T>
  {
    Run(done + r.out, r.completed)
  }

  lemma PrependAndThen<T>(done: seq<T>, a: Run<T>, b: Run<T>)
    ensures Prepend(done, a).AndThen(b) == Prepend(done, a.AndThen(b))
  {
    if a.completed {
      assert (done + a.out) + b.out == done + (a.out + b.out);
    }
  }

  lemma PrependTwice<T>(x: seq<T>, y: seq<T>, r: Run<T>)
    ensures Prepend(x, Prepend(y, r)) == Prepend(x + y, r)
  {
    assert x + (y + r.out) == (x + y) + r.out;
  }

  /** A directory and the entries listed in it, in listing order. */
  datatype ChampionDir = ChampionDir(name: string, entries: seq<string>)

  /** `fileParts[fileParts.length - 2]`; undefined for a path without '/'. */
  function ParentDirectory(filePath: string): Option<string>
  {
    var parts := Split(filePath, '/');
    if |parts| >= 2 then Some(parts[|parts| - 2]) else None
  }

  /** The names logged for the files of one champion directory, starting from the loop state
      (`counter`, `directory`); a missing named directory throws and ends the whole job. */
  function RenameFrom(files: seq<string>, champ: string, counter: nat, directory: Option<string>): Run<string>
    decreases |files|
  {
    if files == [] then Run([], true)
    else
      var current := ParentDirectory(files[0]);
      var c := if directory != current then 0 else counter + 1;
      match FormatVoiceLineFileName(files[0], champ, c)
      case NamedDirMissing => Run([], false)
      case NoName => RenameFrom(files[1..], champ, c, directory)
      case Renamed(p) => Prepend([p], RenameFrom(files[1..], champ, c, current))
  }

  /** The names logged for every champion directory, the counter restarting in each. */
  function RenamePlan(champDirs: seq<ChampionDir>): Run<string>
  {
    if champDirs == [] then Run([], true)
    else RenameFrom(champDirs[0].entries, champDirs[0].name, 0, Some("")).AndThen(RenamePlan(champDirs[1..]))
  }

  /** `renameOggFiles`: the formatted name of every file, numbered per directory. */
  method RenameOggFiles(champDirs: seq<ChampionDir>) returns (logged: seq<string>, completed: bool)
    ensures Run(logged, completed) == RenamePlan(champDirs)
  {
    logged := [];
    var i := 0;
    while i < |champDirs|
      invariant 0 <= i <= |champDirs|
      invariant Prepend(logged, RenamePlan(champDirs[i..])) == RenamePlan(champDirs)
    {
      var names, ok := RenameChampionFiles(champDirs[i].entries, champDirs[i].name);
      RenamePlanAt(champDirs, i);
      PlanStep(logged, names, ok, RenamePlan(champDirs[i + 1..]));
      logged := logged + names;
      if !ok {
        return logged, false;
      }
      i := i + 1;
    }
    completed := true;
  }

  /** The plan from directory `i` on: directory `i`'s names, then the rest when those ran to their end. */
  lemma RenamePlanAt(champDirs: seq<ChampionDir>, i: nat)
    requires i < |champDirs|
    ensures RenamePlan(champDirs[i..])
         == RenameFrom(champDirs[i].entries, champDirs[i].name, 0, Some("")).AndThen(RenamePlan(champDirs[i + 1..]))
  {
    assert champDirs[i..][1..] == champDirs[i + 1..];
  }

  /** Logging one more step's output: what follows it is `rest` when the step ran to its end. */
  lemma PlanStep<T>(logged: seq<T>, names: seq<T>, ok: bool, rest: Run<T>)
    ensures Prepend(logged, Run(names, ok).AndThen(rest))
         == Prepend(logged + names, if ok then rest else Run([], false))
  {
    PrependAndThen(names, Run([], ok), rest);
    PrependTwice(logged, names, Run([], ok).AndThen(rest));
  }

  /** The inner loop of `renameOggFiles` over the files of one champion directory: `counter`
      restarts at 0 in each new directory and counts up within it; `directory` follows the last
      file that got a name. */
  method RenameChampionFiles(files: seq<string>, cdir: string) returns (logged: seq<string>, completed: bool)
    ensures Run(logged, completed) == RenameFrom(files, cdir, 0, Some(""))
  {
    logged := [];
    var counter := 0;
    var directory := Some("");
    var j := 0;
    while j < |files|
      invariant 0 <= j <= |files|
      invariant Prepend(logged, RenameFrom(files[j..], cdir, counter, directory))
             == RenameFrom(files, cdir, 0, Some(""))
    {
      assert files[j..][1..] == files[j + 1..];
      var filePath := files[j];
      var currentDirectory := ParentDirectory(filePath);
      if directory != currentDirectory {
        counter := 0;
      }
      if directory == currentDirectory {
        counter := counter + 1;
      }
      var formattedName := FormatVoiceLineFileName(filePath, cdir, counter);
      if formattedName.NamedDirMissing? {
        return logged, false;
      }
      if formattedName.Renamed? {
        var next := RenameFrom(files[j + 1..], cdir, counter, currentDirectory);
        PrependTwice(logged, [formattedName.path], next);
        logged := logged + [formattedName.path];
        directory := currentDirectory;
      }
      j := j + 1;
    }
    completed := true;
  }

  lemma NumberedNamesCons(files: seq<string>, champ: string, first: nat)
    requires files != [] && FormatVoiceLineFileName(files[0], champ, first).Renamed?
    ensures NumberedNames(files, champ, first)
         == [FormatVoiceLineFileName(files[0], champ, first).path] + NumberedNames(files[1..], champ, first + 1)
  {
  }

  /** Every file lies directly in directory `d` and has a voice-line target. */
  predicate AllNamedIn(files: seq<string>, d: string)
    decreases |files|
  {
    files == [] || (ParentDirectory(files[0]) == Some(d) && VoiceLineTargetOf(files[0]).Target?
                    && AllNamedIn(files[1..], d))
  }

  /** The formatted names of `files` with the counters `first`, `first + 1`, .... */
  function NumberedNames(files: seq<string>, champ: string, first: nat): (r: seq<string>)
    decreases |files|
    ensures |r| == |files|
  {
    if files == [] then []
    else
      match FormatVoiceLineFileName(files[0], champ, first)
      case Renamed(p) => [p] + NumberedNames(files[1..], champ, first + 1)
      case _ => [""] + NumberedNames(files[1..], champ, first + 1)
  }

  /** One step of the loop over a directory's files: a file that gets a name with counter `c`
      puts that name in front of the names of the files after it. */
  lemma RenameStep(files: seq<string>, champ: string, counter: nat, directory: Option<string>, c: nat)
    requires files != []
    requires c == if directory != ParentDirectory(files[0]) then 0 else counter + 1
    requires FormatVoiceLineFileName(files[0], champ, c).Renamed?
    requires RenameFrom(files[1..], champ, c, ParentDirectory(files[0]))
          == Run(NumberedNames(files[1..], champ, c + 1), true)
    ensures RenameFrom(files, champ, counter, directory) == Run(NumberedNames(files, champ, c), true)
  {
    var p := FormatVoiceLineFileName(files[0], champ, c).path;
    var rest := NumberedNames(files[1..], champ, c + 1);
    NumberedNamesCons(files, champ, c);
    assert RenameFrom(files, champ, counter, directory) == Prepend([p], Run(rest, true));
  }

  /** In a directory already being tracked, files that all format get the counters that follow. */
  lemma {:induction false} SameDirectoryNumbering(files: seq<string>, champ: string, d: string, counter: nat)
    requires AllNamedIn(files, d)
    ensures RenameFrom(files, champ, counter, Some(d)) == Run(NumberedNames(files, champ, counter + 1), true)
  {
    if files != [] {
      SameDirectoryNumbering(files[1..], champ, d, counter + 1);
      RenameStep(files, champ, counter, Some(d), counter + 1);
    }
  }

  /** The first file seen in a new directory gets counter `z`, the rest the counters that
      follow. `z` is the 0 the loop restarts the counter at; it is a parameter so that the
      recursive definitions are unfolded at a variable rather than at a literal. */
  lemma EnterDirectory(files: seq<string>, champ: string, d: string, counter: nat,
                       directory: Option<string>, z: nat)
    requires directory != Some(d) && z == 0
    requires AllNamedIn(files, d)
    ensures RenameFrom(files, champ, counter, directory) == Run(NumberedNames(files, champ, z), true)
  {
    if files != [] {
      SameDirectoryNumbering(files[1..], champ, d, z);
      RenameStep(files, champ, counter, directory, z);
    }
  }

  /** Files of one directory, entered from a different directory, that all format are numbered
      0, 1, 2, ... in listing order: the first name has no suffix, the next ones " 1", " 2", .... */
  lemma FreshDirectoryNumbering(files: seq<string>, champ: string, d: string, counter: nat, directory: Option<string>)
    requires directory != Some(d)
    requires AllNamedIn(files, d)
    ensures RenameFrom(files, champ, counter, directory) == Run(NumberedNames(files, champ, 0), true)
  {
    EnterDirectory(files, champ, d, counter, directory, 0);
  }

  /** The counter the loop gives a file, from the loop state before it. */
  function NextCounter(file: string, counter: nat, directory: Option<string>): nat
  {
    if directory != ParentDirectory(file) then 0 else counter + 1
  }

  /** A file without a voice-line target gets no name and leaves `directory` as it was. */
  lemma RenameSkips(files: seq<string>, champ: string, counter: nat, directory: Option<string>)
    requires files != [] && VoiceLineTargetOf(files[0]).NoTarget?
    ensures RenameFrom(files, champ, counter, directory)
         == RenameFrom(files[1..], champ, NextCounter(files[0], counter, directory), directory)
  {
  }

  /** A file with a voice-line target gets its name, and `directory` becomes its own. */
  lemma RenameNames(files: seq<string>, champ: string, counter: nat, directory: Option<string>)
    requires files != [] && VoiceLineTargetOf(files[0]).Target?
    ensures var c := NextCounter(files[0], counter, directory);
      RenameFrom(files, champ, counter, directory)
        == Prepend([FormatVoiceLineFileName(files[0], champ, c).path],
                   RenameFrom(files[1..], champ, c, ParentDirectory(files[0])))
  {
  }

  /** Past the last file, nothing more is logged and the run is complete. */
  lemma RenameEnd(files: seq<string>, champ: string, counter: nat, directory: Option<string>)
    requires files == []
    ensures RenameFrom(files, champ, counter, directory) == Run([], true)
  {
  }

  /** A file without a voice-line target between two named files of directory `d` gets no name
      and leaves `directory` at `d`, but still moves the counter: it restarts it at 0 when the
      file lies in another directory (so the next file of `d` gets " 1") and advances it when it
      lies in `d` too (so the next file gets " 2"). */
  lemma UnnamedFileBetween(a: string, x: string, b: string, champ: string, d: string,
                           counter: nat, directory: Option<string>)
    requires directory != Some(d)
    requires ParentDirectory(a) == Some(d) && VoiceLineTargetOf(a).Target?
    requires VoiceLineTargetOf(x).NoTarget?
    requires ParentDirectory(b) == Some(d) && VoiceLineTargetOf(b).Target?
    ensures RenameFrom([a, x, b], champ, counter, directory)
         == Run([FormatVoiceLineFileName(a, champ, 0).path,
                 FormatVoiceLineFileName(b, champ, if ParentDirectory(x) == Some(d) then 2 else 1).path], true)
  {
    var files := [a, x, b];
    assert files[1..] == [x, b] && files[1..][1..] == [b] && [b][1..] == [];
    var cx := NextCounter(x, 0, Some(d));
    var pa := FormatVoiceLineFileName(a, champ, 0).path;
    var pb := FormatVoiceLineFileName(b, champ, cx + 1).path;
    RenameNames(files, champ, counter, directory);
    RenameSkips([x, b], champ, 0, Some(d));
    RenameNames([b], champ, cx, Some(d));
    assert NextCounter(b, cx, Some(d)) == cx + 1;
    RenameEnd([b][1..], champ, cx + 1, Some(d));
    assert RenameFrom([b], champ, cx, Some(d)) == Prepend([pb], Run([], true));
    assert RenameFrom(files, champ, counter, directory) == Prepend([pa], Prepend([pb], Run([], true)));
    PrependPair(pa, pb);
    assert cx + 1 == if ParentDirectory(x) == Some(d) then 2 else 1;
  }

  lemma PrependPair<T>(x: T, y: T)
    ensures Prepend([x], Prepend([y], Run([], true))) == Run([x, y], true)
  {
    assert [x] + ([y] + []) == [x, y];
  }

  // ---------------------------------------------------------------------------
  // extractBnkContent: the skin directory -> .bin name rule and the nested loops
  // ---------------------------------------------------------------------------

  /** `binFile` for a skin directory: "skin0" for "base"; otherwise "skin" followed by
      `sdir.split("skin")[1]` without its leading zeros. `None` where `parts[1]` is undefined
      (no "skin" in the name) and the source throws. */
  function BinFileName(sdir: string): (r: Option<string>)
    ensures sdir == "base" ==> r == Some("skin0")
    ensures sdir != "base" ==> (r.None? <==> !Contains(sdir, "skin"))
    ensures r.Some? ==> |r.value| >= 4 && r.value[..4] == "skin"
    ensures r.Some? && sdir != "base" ==> |r.value| == 4 || r.value[4] != '0'
  {
    if sdir == "base" then Some("skin0")
    else
      var parts := SplitOn(sdir, "skin");
      if |parts| < 2 then None else Some("skin" + StripLeadingZeros(parts[1]))
  }

  function Zeros(n: nat): (r: string)
    ensures |r| == n && forall i :: 0 <= i < n ==> r[i] == '0'
  {
    seq(n, _ => '0')
  }

  lemma {:induction false} StripZerosBeforeNumber(z: nat, digits: string)
    requires digits == [] || digits[0] != '0'
    ensures StripLeadingZeros(Zeros(z) + digits) == digits
  {
    if z > 0 {
      assert (Zeros(z) + digits)[1..] == Zeros(z - 1) + digits;
      StripZerosBeforeNumber(z - 1, digits);
    } else {
      assert Zeros(z) + digits == digits;
    }
  }

  /** A string of digits has no "skin" in it, so splitting on "skin" leaves it whole. */
  lemma SplitDigitsOnSkin(digits: string)
    requires forall i :: 0 <= i < |digits| ==> IsDigit(digits[i])
    ensures SplitOn(digits, "skin") == [digits]
  {
    forall j: nat ensures !IsAt(digits, "skin", j) {
      if j + 4 <= |digits| {
        assert digits[j..j + 4][0] == digits[j];
        assert IsDigit(digits[j]);
      }
    }
    assert IndexOf(digits, "skin").None?;
  }

  /** A name made of "skin" and then a part without "skin" splits into "" and that part, so its
      `.bin` name is "skin" and that part without leading zeros. */
  lemma BinFileAfterLeadingSkin(rest: string)
    requires SplitOn(rest, "skin") == [rest]
    ensures BinFileName("skin" + rest) == Some("skin" + StripLeadingZeros(rest))
  {
    var sdir := "skin" + rest;
    assert IsAt(sdir, "skin", 0);
    assert sdir[4..] == rest;
    assert SplitOn(sdir, "skin") == ["", rest];
    assert sdir != "base" by { assert sdir[0] != "base"[0]; }
  }

  /** "skin" then any number of zeros then a positive number n gives "skin<n>": skin01 -> skin1. */
  lemma BinFileOfNumberedSkin(z: nat, n: nat)
    requires n >= 1
    ensures BinFileName("skin" + Zeros(z) + NatToString(n)) == Some("skin" + NatToString(n))
  {
    var digits := Zeros(z) + NatToString(n);
    SplitDigitsOnSkin(digits);
    BinFileAfterLeadingSkin(digits);
    StripZerosBeforeNumber(z, NatToString(n));
    ConcatAssoc("skin", Zeros(z), NatToString(n));
  }

  datatype ExtractJob = ExtractJob(champion: string, skinDir: string, binFile: string)

  /** The extraction jobs queued for the skin directories of one champion. */
  function SkinJobs(cdir: string, skinDirs: seq<string>): Run<ExtractJob>
  {
    if skinDirs == [] then Run([], true)
    else
      match BinFileName(skinDirs[0])
      case None => Run([], false)
      case Some(binFile) => Prepend([ExtractJob(cdir, skinDirs[0], binFile)], SkinJobs(cdir, skinDirs[1..]))
  }

  /** The extraction jobs queued for every champion directory, in listing order. */
  function ExtractPlan(champDirs: seq<ChampionDir>): Run<ExtractJob>
  {
    if champDirs == [] then Run([], true)
    else SkinJobs(champDirs[0].name, champDirs[0].entries).AndThen(ExtractPlan(champDirs[1..]))
  }

  /** The nested loops of `extractBnkContent`: one job per skin directory, until a directory
      name without "skin" (other than "base") makes the source throw. */
  method ExtractBnkContent(champDirs: seq<ChampionDir>) returns (queued: seq<ExtractJob>, completed: bool)
    ensures Run(queued, completed) == ExtractPlan(champDirs)
  {
    queued := [];
    var i := 0;
    while i < |champDirs|
      invariant 0 <= i <= |champDirs|
      invariant Prepend(queued, ExtractPlan(champDirs[i..])) == ExtractPlan(champDirs)
    {
      assert champDirs[i..][1..] == champDirs[i + 1..];
      var cdir := champDirs[i].name;
      var skinDirs := champDirs[i].entries;
      var rest := ExtractPlan(champDirs[i + 1..]);
      var j := 0;
      while j < |skinDirs|
        invariant 0 <= j <= |skinDirs|
        invariant Prepend(queued, SkinJobs(cdir, skinDirs[j..]).AndThen(rest)) == ExtractPlan(champDirs)
      {
        assert skinDirs[j..][1..] == skinDirs[j + 1..];
        var sdir := skinDirs[j];
        var binFile := BinFileName(sdir);
        if binFile.None? {
          return queued, false;
        }
        var job := ExtractJob(cdir, sdir, binFile.value);
        var next := SkinJobs(cdir, skinDirs[j + 1..]);
        PrependAndThen([job], next, rest);
        PrependTwice(queued, [job], next.AndThen(rest));
        queued := queued + [job];
        j := j + 1;
      }
      assert SkinJobs(cdir, skinDirs[j..]) == Run([], true);
      assert Run([], true).AndThen(rest) == rest;
      i := i + 1;
    }
    completed := true;
  }

  /** Every queued job names the `.bin` file its skin directory maps to. */
  lemma {:induction false} ExtractJobsNamed(champDirs: seq<ChampionDir>)
    ensures forall job :: job in ExtractPlan(champDirs).out ==> BinFileName(job.skinDir) == Some(job.binFile)
  {
    if champDirs != [] {
      SkinJobsNamed(champDirs[0].name, champDirs[0].entries);
      ExtractJobsNamed(champDirs[1..]);
    }
  }

  lemma {:induction false} SkinJobsNamed(cdir: string, skinDirs: seq<string>)
    ensures forall job :: job in SkinJobs(cdir, skinDirs).out ==> BinFileName(job.skinDir) == Some(job.binFile)
  {
    if skinDirs != [] {
      SkinJobsNamed(cdir, skinDirs[1..]);
    }
  }

  /** Reference definition: one job per skin directory, named by its `.bin` file. */
  function EntryJobs(cdir: string, skinDirs: seq<string>): seq<ExtractJob>
  {
    seq(|skinDirs|, k requires 0 <= k < |skinDirs| => ExtractJob(cdir, skinDirs[k], BinFileName(skinDirs[k]).GetOr("")))
  }

  /** Reference definition: the jobs of every champion directory, concatenated in listing order. */
  function AllEntryJobs(champDirs: seq<ChampionDir>): seq<ExtractJob>
  {
    if champDirs == [] then [] else EntryJobs(champDirs[0].name, champDirs[0].entries) + AllEntryJobs(champDirs[1..])
  }

  /** When every skin directory is "base" or contains "skin", every directory gets one job, in
      listing order, champion after champion. */
  lemma {:induction false} ExtractPlanCompletes(champDirs: seq<ChampionDir>)
    requires forall c, d :: c in champDirs && d in c.entries ==> d == "base" || Contains(d, "skin")
    ensures ExtractPlan(champDirs).completed
    ensures |ExtractPlan(champDirs).out| == TotalEntries(champDirs)
    ensures ExtractPlan(champDirs).out == AllEntryJobs(champDirs)
  {
    if champDirs != [] {
      SkinJobsComplete(champDirs[0].name, champDirs[0].entries);
      ExtractPlanCompletes(champDirs[1..]);
    }
  }

  lemma {:induction false} SkinJobsComplete(cdir: string, skinDirs: seq<string>)
    requires forall d :: d in skinDirs ==> d == "base" || Contains(d, "skin")
    ensures SkinJobs(cdir, skinDirs).completed && |SkinJobs(cdir, skinDirs).out| == |skinDirs|
    ensures forall k :: 0 <= k < |skinDirs| ==>
              SkinJobs(cdir, skinDirs).out[k] == ExtractJob(cdir, skinDirs[k], BinFileName(skinDirs[k]).value)
    ensures SkinJobs(cdir, skinDirs).out == EntryJobs(cdir, skinDirs)
  {
    if skinDirs != [] {
      SkinJobsComplete(cdir, skinDirs[1..]);
      var job := ExtractJob(cdir, skinDirs[0], BinFileName(skinDirs[0]).value);
      assert SkinJobs(cdir, skinDirs) == Prepend([job], SkinJobs(cdir, skinDirs[1..]));
      assert EntryJobs(cdir, skinDirs) == [job] + EntryJobs(cdir, skinDirs[1..]);
    }
  }

  function TotalEntries(champDirs: seq<ChampionDir>): nat
  {
    if champDirs == [] then 0 else |champDirs[0].entries| + TotalEntries(champDirs[1..])
  }
}
