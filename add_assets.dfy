/**
  The `insert` callback of the add-assets job (bin/jobs/add-assets.ts): every listed
  object key becomes an asset record (type, uri, url, display name and skin), the
  records are grouped by character in first-occurrence order, and each group is
  upserted by uri in one batch for the character of that name. A group whose
  character does not exist ends the page: that group and every later one are skipped.

  The data-dragon skin table is a parameter (lower-cased champion name to its skins),
  and so is the bucket name.
 */
module AddAssets {
  import opened Wrappers
  import opened Text
  import opened Utils
  import opened Database
  import opened S3

  /** An entry of `response.Contents` after the first `map`: its key and character name. */
  datatype StoredObject = StoredObject(key: string, characterName: string)

  /** One skin of a data-dragon champion record: `{ num, name }`. */
  datatype Skin = Skin(num: nat, name: string)

  datatype Group = Group(name: string, members: seq<StoredObject>)

  // ---------------------------------------------------------------------------
  // characterName
  // ---------------------------------------------------------------------------

  /** `key.split("/")[1] ?? ""`: the second "/"-separated segment of the key. */
  function CharacterName(key: string): (r: string)
    ensures '/' !in key ==> r == ""
  {
    var keyParts := Split(key, '/');
    assert '/' !in key ==> keyParts == [key] by {
      if '/' !in key {
        SplitNoSeparator(key, '/');
      }
    }
    if |keyParts| >= 2 then keyParts[1] else ""
  }

  /** The segment after the first '/' is the character name, whether or not more segments follow. */
  lemma CharacterNameOfKey(a: string, n: string, rest: string)
    requires '/' !in a && '/' !in n
    ensures CharacterName(a + "/" + n) == n
    ensures CharacterName(a + "/" + n + "/" + rest) == n
  {
    SplitNoSeparator(n, '/');
    SplitAtFirst(a, '/', n);
    SplitAtFirst(n, '/', rest);
    assert a + "/" + n + "/" + rest == a + ['/'] + (n + ['/'] + rest);
    SplitAtFirst(a, '/', n + ['/'] + rest);
  }

  /** `response.Contents.map((c) => ({ key: c.Key ?? "", characterName }))` */
  function StoredObjects(contents: seq<S3Object>): (r: seq<StoredObject>)
    ensures |r| == |contents|
    ensures forall i :: 0 <= i < |r| ==> r[i].key == contents[i].key.GetOr("")
    ensures forall i :: 0 <= i < |r| ==> r[i].characterName == CharacterName(r[i].key)
  {
    seq(|contents|, i requires 0 <= i < |contents| =>
      var key := contents[i].key.GetOr("");
      StoredObject(key, CharacterName(key)))
  }

  // ---------------------------------------------------------------------------
  // type
  // ---------------------------------------------------------------------------

  /** "model" wins over "sfx", and a key with neither is a voice line. */
  function AssetTypeOf(key: string): (r: AssetType)
    ensures r == Model <==> Contains(key, "model")
    ensures r == Sfx <==> !Contains(key, "model") && Contains(key, "sfx")
    ensures r == Vo <==> !Contains(key, "model") && !Contains(key, "sfx")
  {
    if Contains(key, "model") then Model
    else if Contains(key, "sfx") then Sfx
    else Vo
  }

  // ---------------------------------------------------------------------------
  // skin: the first match of \W*(skin)\d*\W* (flags g, i), '/' and '.' removed
  // ---------------------------------------------------------------------------

  /** "skin" in any letter case starts at `i`. */
  predicate SkinAt(s: string, i: nat)
  {
    && i + 4 <= |s|
    && LowerChar(s[i]) == 's' && LowerChar(s[i + 1]) == 'k'
    && LowerChar(s[i + 2]) == 'i' && LowerChar(s[i + 3]) == 'n'
  }

  function FirstSkinFrom(s: string, from: nat): (r: Option<nat>)
    decreases |s| - from
    ensures r.Some? ==> from <= r.value && SkinAt(s, r.value)
    ensures r.Some? ==> forall j :: from <= j < r.value ==> !SkinAt(s, j)
    ensures r.None? ==> forall j :: from <= j ==> !SkinAt(s, j)
  {
    if from + 4 > |s| then None
    else if SkinAt(s, from) then Some(from)
    else FirstSkinFrom(s, from + 1)
  }

  /** Where the run of non-word characters that ends at `q` starts. */
  function NonWordRunStart(s: string, q: nat): (p: nat)
    requires q <= |s|
    ensures p <= q && (p == 0 || IsWordChar(s[p - 1]))
    ensures forall k :: p <= k < q ==> !IsWordChar(s[k])
  {
    if q > 0 && !IsWordChar(s[q - 1]) then NonWordRunStart(s, q - 1) else q
  }

  /** Where the run of non-word characters that starts at `j` ends. */
  function NonWordRunEnd(s: string, j: nat): (e: nat)
    requires j <= |s|
    decreases |s| - j
    ensures j <= e <= |s| && (e == |s| || IsWordChar(s[e]))
    ensures forall k :: j <= k < e ==> !IsWordChar(s[k])
  {
    if j < |s| && !IsWordChar(s[j]) then NonWordRunEnd(s, j + 1) else j
  }

  /** `key.match(re)?.[0]` for the pattern `\W*(skin)\d*\W*` with flags `g` and `i`. The leftmost
      match starts where the non-word run before the first "skin" starts (an earlier start would
      reach a word character first), and the greedy `\d*` and `\W*` take whole runs. */
  function SkinMatch(key: string): (r: Option<string>)
    ensures r.None? <==> forall j :: !SkinAt(key, j)
  {
    match FirstSkinFrom(key, 0)
    case None => None
    case Some(q) =>
      var p := NonWordRunStart(key, q);
      var d := DigitRunEnd(key, q + 4);
      var e := NonWordRunEnd(key, d);
      Some(key[p..e])
  }

  /** `currentSkin`: the first match with every '/' and '.' removed (the global replace of
      runs of slashes followed by runs of dots), or "" when nothing matches. */
  function SkinToken(key: string): (r: string)
    ensures '/' !in r && '.' !in r
    ensures (forall j :: !SkinAt(key, j)) ==> r == ""
  {
    match SkinMatch(key)
    case None => ""
    case Some(m) => RemoveChars(m, {'/', '.'})
  }

  lemma FirstSkinIs(key: string, q: nat)
    requires SkinAt(key, q)
    requires forall j :: 0 <= j < q ==> !SkinAt(key, j)
    ensures FirstSkinFrom(key, 0) == Some(q)
  {
  }

  /** The runs around "skin" + digits between two runs of '/' and '.': the non-word run before
      "skin" is the first run, the digits end where the second run starts, and the non-word run
      after them is the second run. */
  lemma SkinSegmentRuns(key: string, p: nat, q: nat, d: nat, e: nat)
    requires p <= q && q + 4 <= d < e <= |key|
    requires p == 0 || IsWordChar(key[p - 1])
    requires forall k :: p <= k < q ==> key[k] in {'/', '.'}
    requires forall k :: q + 4 <= k < d ==> IsDigit(key[k])
    requires forall k :: d <= k < e ==> key[k] in {'/', '.'}
    requires e == |key| || IsWordChar(key[e])
    ensures NonWordRunStart(key, q) == p
    ensures DigitRunEnd(key, q + 4) == d
    ensures NonWordRunEnd(key, d) == e
  {
    assert forall k :: p <= k < q ==> !IsWordChar(key[k]);
    assert forall k :: d <= k < e ==> !IsWordChar(key[k]);
    assert key[d] in {'/', '.'};
    assert !IsDigit(key[d]);
  }

  /** "skin" followed by digits holds neither '/' nor '.'. */
  lemma SkinSegmentPlain(key: string, q: nat, d: nat)
    requires q + 4 <= d <= |key|
    requires SkinAt(key, q)
    requires forall k :: q + 4 <= k < d ==> IsDigit(key[k])
    ensures forall i :: 0 <= i < d - q ==> key[q..d][i] !in {'/', '.'}
  {
    forall i | 0 <= i < d - q ensures key[q..d][i] !in {'/', '.'} {
      assert key[q..d][i] == key[q + i];
      if i >= 4 {
        assert IsDigit(key[q + i]);
      } else {
        assert LowerChar('/') == '/' && LowerChar('.') == '.';
      }
    }
  }

  /** Removing the characters of `cs` from a string bracketed by two runs of them leaves its
      inside, when the inside has none of them. */
  lemma RemoveCharsBracketed(x: string, t: string, y: string, cs: set<char>)
    requires forall i :: 0 <= i < |x| ==> x[i] in cs
    requires forall i :: 0 <= i < |y| ==> y[i] in cs
    requires forall i :: 0 <= i < |t| ==> t[i] !in cs
    ensures RemoveChars(x + t + y, cs) == t
  {
    RemoveCharsAppend(x + t, y, cs);
    RemoveCharsAppend(x, t, cs);
    RemoveCharsNone(t, cs);
    RemoveCharsAll(x, cs);
    RemoveCharsAll(y, cs);
  }

  /** When the first "skin" of a key (in any letter case) starts after a run of '/' and '.'
      that follows a word character (or starts the key), and its digits are followed by
      another such run and then a word character or the end, the skin token is "skin" and
      the digits: "models/aatrox/skin07/aatrox.glb" has the token "skin07" and
      "models/aatrox/skin0.glb" the token "skin0". */
  lemma SkinTokenOfSegment(key: string, p: nat, q: nat, d: nat, e: nat)
    requires p <= q && q + 4 <= d < e <= |key|
    requires SkinAt(key, q) && forall j :: 0 <= j < q ==> !SkinAt(key, j)
    requires p == 0 || IsWordChar(key[p - 1])
    requires forall k :: p <= k < q ==> key[k] in {'/', '.'}
    requires forall k :: q + 4 <= k < d ==> IsDigit(key[k])
    requires forall k :: d <= k < e ==> key[k] in {'/', '.'}
    requires e == |key| || IsWordChar(key[e])
    ensures SkinToken(key) == key[q..d]
  {
    FirstSkinIs(key, q);
    SkinSegmentRuns(key, p, q, d, e);
    assert SkinMatch(key) == Some(key[p..e]);
    SkinTokenOfRuns(key, p, q, d, e);
  }

  /** A model key with the skin number before the extension. */
  lemma SkinTokenOfModelKey()
    ensures SkinToken("models/aatrox/skin0.glb") == "skin0"
  {
    var key := "models/aatrox/skin0.glb";
    assert key[..14] == "models/aatrox/" && key[14..19] == "skin0" && key[19..] == ".glb";
    assert forall j :: 0 <= j < 14 ==> LowerChar(key[j]) != 's' || LowerChar(key[j + 1]) != 'k';
    SkinTokenOfSegment(key, 13, 14, 19, 20);
  }

  lemma SkinTokenOfRuns(key: string, p: nat, q: nat, d: nat, e: nat)
    requires p <= q && q + 4 <= d < e <= |key|
    requires SkinAt(key, q)
    requires forall k :: p <= k < q ==> key[k] in {'/', '.'}
    requires forall k :: q + 4 <= k < d ==> IsDigit(key[k])
    requires forall k :: d <= k < e ==> key[k] in {'/', '.'}
    ensures RemoveChars(key[p..e], {'/', '.'}) == key[q..d]
  {
    assert key[p..e] == key[p..q] + key[q..d] + key[d..e];
    SkinSegmentPlain(key, q, d);
    RemoveCharsBracketed(key[p..q], key[q..d], key[d..e], {'/', '.'});
  }

  // ---------------------------------------------------------------------------
  // name of a model asset: the skin table, or the next chroma number
  // ---------------------------------------------------------------------------

  /** `s => `skin${s.num}` === currentSkin` */
  predicate SkinNamed(s: Skin, currentSkin: string)
  {
    "skin" + NatToString(s.num) == currentSkin
  }

  function FirstMatchingSkin(skins: seq<Skin>, currentSkin: string, from: nat): (r: Option<nat>)
    decreases |skins| - from
    ensures r.Some? ==> from <= r.value < |skins| && SkinNamed(skins[r.value], currentSkin)
    ensures r.Some? ==> forall j :: from <= j < r.value ==> !SkinNamed(skins[j], currentSkin)
    ensures r.None? ==> forall j :: from <= j < |skins| ==> !SkinNamed(skins[j], currentSkin)
  {
    if from >= |skins| then None
    else if SkinNamed(skins[from], currentSkin) then Some(from)
    else FirstMatchingSkin(skins, currentSkin, from + 1)
  }

  /** `skinsByChampion[characterName.toLowerCase()]?.find(...)?.name` */
  function KnownSkinName(skinsByChampion: map<string, seq<Skin>>, characterName: string,
                         currentSkin: string): (r: Option<string>)
    ensures r.Some? ==> Lower(characterName) in skinsByChampion
    ensures r.Some? ==>
              exists i :: 0 <= i < |skinsByChampion[Lower(characterName)]|
                && SkinNamed(skinsByChampion[Lower(characterName)][i], currentSkin)
                && skinsByChampion[Lower(characterName)][i].name == r.value
                && forall k :: 0 <= k < i ==> !SkinNamed(skinsByChampion[Lower(characterName)][k], currentSkin)
    ensures r.None? <==> (Lower(characterName) !in skinsByChampion
              || forall s :: s in skinsByChampion[Lower(characterName)] ==> !SkinNamed(s, currentSkin))
  {
    var lower := Lower(characterName);
    if lower !in skinsByChampion then None
    else
      match FirstMatchingSkin(skinsByChampion[lower], currentSkin, 0)
      case None => None
      case Some(i) => Some(skinsByChampion[lower][i].name)
  }

  /** A model the skin table names with a non-empty name; any other model takes a chroma number. */
  predicate NamedBySkinTable(obj: StoredObject, skinsByChampion: map<string, seq<Skin>>)
  {
    var m := KnownSkinName(skinsByChampion, obj.characterName, SkinToken(obj.key));
    m.Some? && m.value != ""
  }

  predicate TakesChroma(obj: StoredObject, skinsByChampion: map<string, seq<Skin>>)
  {
    AssetTypeOf(obj.key) == Model && !NamedBySkinTable(obj, skinsByChampion)
  }

  // ---------------------------------------------------------------------------
  // name of an sfx or vo asset
  // ---------------------------------------------------------------------------

  /** `.ogg` (with `.` any character but a line terminator) matches at `i`, ignoring case. */
  predicate OggAt(s: string, i: nat)
  {
    && i + 4 <= |s| && !IsLineTerminator(s[i])
    && LowerChar(s[i + 1]) == 'o' && LowerChar(s[i + 2]) == 'g' && LowerChar(s[i + 3]) == 'g'
  }

  /** `playsfx_` matches at `i`, ignoring case. */
  predicate PlaysfxAt(s: string, i: nat)
  {
    && i + 8 <= |s|
    && LowerChar(s[i]) == 'p' && LowerChar(s[i + 1]) == 'l' && LowerChar(s[i + 2]) == 'a'
    && LowerChar(s[i + 3]) == 'y' && LowerChar(s[i + 4]) == 's' && LowerChar(s[i + 5]) == 'f'
    && LowerChar(s[i + 6]) == 'x' && s[i + 7] == '_'
  }

  /** `s.replace(/.ogg|playsfx_/gi, "")`: scanning left to right, a match of either alternative
      (the first tried first) is removed and the scan resumes after it. */
  function RemoveOggOrPlaysfx(s: string): (r: string)
    decreases |s|
    ensures |r| <= |s|
  {
    if OggAt(s, 0) then RemoveOggOrPlaysfx(s[4..])
    else if PlaysfxAt(s, 0) then RemoveOggOrPlaysfx(s[8..])
    else if s == [] then []
    else [s[0]] + RemoveOggOrPlaysfx(s[1..])
  }

  lemma MatchesShift(s: string, k: nat, i: nat)
    requires k <= |s|
    ensures OggAt(s[k..], i) == OggAt(s, k + i)
    ensures PlaysfxAt(s[k..], i) == PlaysfxAt(s, k + i)
  {
  }

  /** A name whose only match is a final ".ogg" (any character, then "ogg") loses exactly that. */
  lemma {:induction false} RemoveOggExtension(s: string)
    requires |s| >= 4 && OggAt(s, |s| - 4)
    requires forall i :: 0 <= i < |s| - 4 ==> !OggAt(s, i) && !PlaysfxAt(s, i)
    ensures RemoveOggOrPlaysfx(s) == s[..|s| - 4]
  {
    if |s| == 4 {
      assert s[4..] == [];
    } else {
      assert !OggAt(s, 0) && !PlaysfxAt(s, 0);
      forall i | 0 <= i < |s| - 5 ensures !OggAt(s[1..], i) && !PlaysfxAt(s[1..], i) {
        MatchesShift(s, 1, i);
      }
      MatchesShift(s, 1, |s| - 5);
      RemoveOggExtension(s[1..]);
      assert s[..|s| - 4] == [s[0]] + s[1..][..|s| - 5];
    }
  }

  /** "playsfx_" + name + ".ogg", with no match inside the name, gives the name:
      "playsfx_q2_on_hit.ogg" becomes "q2_on_hit". */
  lemma RemoveSoundAffixes(s: string)
    requires |s| >= 12 && PlaysfxAt(s, 0) && OggAt(s, |s| - 4)
    requires forall i :: 8 <= i < |s| - 4 ==> !OggAt(s, i) && !PlaysfxAt(s, i)
    ensures RemoveOggOrPlaysfx(s) == s[8..|s| - 4]
  {
    assert !OggAt(s, 0);
    var t := s[8..];
    forall i | 0 <= i < |t| - 4 ensures !OggAt(t, i) && !PlaysfxAt(t, i) {
      MatchesShift(s, 8, i);
    }
    MatchesShift(s, 8, |t| - 4);
    RemoveOggExtension(t);
    assert t[..|t| - 4] == s[8..|s| - 4];
  }

  /** `keyParts.at(keyParts.length - 1) ?? ""`: the last "/"-separated segment of the key. */
  function FileName(key: string): string
  {
    var keyParts := Split(key, '/');
    keyParts[|keyParts| - 1]
  }

  /** The file name of a key is its last segment. */
  lemma FileNameAfterSlash(p: string, f: string)
    requires '/' !in f
    ensures FileName(p + "/" + f) == f
  {
    SplitAppend(p, f, '/');
    SplitNoSeparator(f, '/');
  }

  /** `capitalize(fileName.replace(/.ogg|playsfx_/gi, "").replace(/_/gi, " "))`: underscores have
      become spaces, so the name has none. */
  function SoundName(key: string): (r: string)
    ensures '_' !in r
  {
    var spaced := ReplaceChar(RemoveOggOrPlaysfx(FileName(key)), '_', ' ');
    var r := Capitalize(Some(spaced));
    assert forall i :: 0 <= i < |r| ==> r[i] != '_' by {
      forall i | 0 <= i < |r| ensures r[i] != '_' {
        assert i < |spaced| && spaced[i] != '_';
        assert r[i] == if i == 0 || spaced[i - 1] == ' ' then UpperChar(spaced[i]) else spaced[i];
      }
    }
    r
  }

  /** The literal parts of a "playsfx_<x>.ogg" file name match where the regex expects them. */
  lemma SoundFileAffixes(x: string)
    ensures var f := "playsfx_" + x + ".ogg";
      |f| >= 12 && PlaysfxAt(f, 0) && OggAt(f, |f| - 4) && f[8..|f| - 4] == x
  {
  }

  /** The letters of "playsfx_" and ".ogg" are not '/'. */
  lemma SoundFileNoSlash(x: string)
    requires '/' !in x
    ensures '/' !in "playsfx_" + x + ".ogg"
  {
  }

  /** The literal ".ogg" at the end of a file name matches where the regex expects it. */
  lemma OggFileAffix(x: string)
    ensures var f := x + ".ogg"; |f| >= 4 && OggAt(f, |f| - 4) && f[..|f| - 4] == x
  {
  }

  /** The letters of ".ogg" are not '/'. */
  lemma OggFileNoSlash(x: string)
    requires '/' !in x
    ensures '/' !in x + ".ogg"
  {
  }

  /** A key ".../<x>.ogg" with no other ".ogg" or "playsfx_" match is named by x with its '_'
      turned into spaces, then capitalised. */
  lemma SoundNameOfOgg(p: string, x: string)
    requires '/' !in x
    requires var f := x + ".ogg";
      forall i :: 0 <= i < |f| - 4 ==> !OggAt(f, i) && !PlaysfxAt(f, i)
    ensures SoundName(p + "/" + x + ".ogg") == Capitalize(Some(ReplaceChar(x, '_', ' ')))
  {
    var f := x + ".ogg";
    assert p + "/" + x + ".ogg" == p + "/" + f;
    OggFileNoSlash(x);
    FileNameAfterSlash(p, f);
    OggFileAffix(x);
    RemoveOggExtension(f);
  }

  /** An sfx key ".../playsfx_<x>.ogg" with no other ".ogg" or "playsfx_" match is named by x with
      its '_' turned into spaces, then capitalised. */
  lemma SoundNameOfPlaysfx(p: string, x: string)
    requires '/' !in x
    requires var f := "playsfx_" + x + ".ogg";
      forall i :: 8 <= i < |f| - 4 ==> !OggAt(f, i) && !PlaysfxAt(f, i)
    ensures SoundName(p + "/playsfx_" + x + ".ogg") == Capitalize(Some(ReplaceChar(x, '_', ' ')))
  {
    var f := "playsfx_" + x + ".ogg";
    assert p + "/playsfx_" + x + ".ogg" == p + "/" + f;
    SoundFileNoSlash(x);
    FileNameAfterSlash(p, f);
    SoundFileAffixes(x);
    RemoveSoundAffixes(f);
  }

  // ---------------------------------------------------------------------------
  // uri and url
  // ---------------------------------------------------------------------------

  function UriPrefix(bucket: string): string
  {
    "s3://" + bucket + "/"
  }

  /** `s3://${BUCKET_NAME}/${key}` */
  function Uri(bucket: string, key: string): string
  {
    UriPrefix(bucket) + key
  }

  /** `https://${BUCKET_NAME}.s3.amazonaws.com/${key}` */
  function Url(bucket: string, key: string): string
  {
    "https://" + bucket + ".s3.amazonaws.com/" + key
  }

  /** The key an asset uri of the bucket names. */
  function KeyOfUri(bucket: string, uri: string): (r: Option<string>)
    ensures r.Some? ==> Uri(bucket, r.value) == uri
  {
    var p := UriPrefix(bucket);
    if |p| <= |uri| && uri[..|p|] == p then
      assert uri == p + uri[|p|..];
      Some(uri[|p|..])
    else None
  }

  /** The uri gives back its key, so distinct keys have distinct uris and the upsert keyed by
      uri writes one asset per object key. */
  lemma UriRoundTrip(bucket: string, key: string)
    ensures KeyOfUri(bucket, Uri(bucket, key)) == Some(key)
  {
    var u := Uri(bucket, key);
    assert u[..|UriPrefix(bucket)|] == UriPrefix(bucket);
    assert u[|UriPrefix(bucket)|..] == key;
  }

  // ---------------------------------------------------------------------------
  // One asset per object; the chroma counter runs through a group
  // ---------------------------------------------------------------------------

  /** One object's asset before the group's counter is consulted: every field, and the name
      unless it is a model the skin table does not name (`None`, to be numbered as a chroma). */
  datatype Draft = Draft(kind: AssetType, uri: string, url: string, skin: string, name: Option<string>)

  function DraftOf(obj: StoredObject, skinsByChampion: map<string, seq<Skin>>, bucket: string): (r: Draft)
    ensures r.kind == AssetTypeOf(obj.key) && r.skin == SkinToken(obj.key)
    ensures r.uri == Uri(bucket, obj.key) && r.url == Url(bucket, obj.key)
    ensures r.kind != Model ==> r.name == Some(SoundName(obj.key))
    ensures r.name.None? <==> TakesChroma(obj, skinsByChampion)
    ensures r.kind == Model && r.name.Some? ==>
              r.name.value == KnownSkinName(skinsByChampion, obj.characterName, SkinToken(obj.key)).value
  {
    var currentSkin := SkinToken(obj.key);
    var kind := AssetTypeOf(obj.key);
    var matchingSkin := KnownSkinName(skinsByChampion, obj.characterName, currentSkin);
    var name :=
      if kind != Model then Some(SoundName(obj.key))
      else if matchingSkin.Some? && matchingSkin.value != "" then Some(matchingSkin.value)
      else None;
    Draft(kind, Uri(bucket, obj.key), Url(bucket, obj.key), currentSkin, name)
  }

  function Drafts(objects: seq<StoredObject>, skinsByChampion: map<string, seq<Skin>>, bucket: string)
    : (r: seq<Draft>)
    ensures |r| == |objects|
  {
    seq(|objects|, k requires 0 <= k < |objects| => DraftOf(objects[k], skinsByChampion, bucket))
  }

  /** `Chroma ${chromaNum}` */
  function ChromaName(n: nat): string
  {
    "Chroma " + NatToString(n)
  }

  /** The asset of a draft, `chromaNum` being the group's counter before it. */
  function Complete(d: Draft, chromaNum: nat): (r: AssetData)
    ensures r.kind == d.kind && r.uri == d.uri && r.url == d.url && r.skin == d.skin
    ensures r.name == if d.name.Some? then d.name.value else ChromaName(chromaNum + 1)
  {
    AssetData(d.kind, d.uri, d.url, if d.name.Some? then d.name.value else ChromaName(chromaNum + 1), d.skin)
  }

  /** How many of the drafts take a chroma number. */
  function ChromaCount(drafts: seq<Draft>): (r: nat)
    ensures r <= |drafts|
  {
    if drafts == [] then 0 else (if drafts[0].name.None? then 1 else 0) + ChromaCount(drafts[1..])
  }

  /** The assets of the drafts in order, the counter starting at `chromaNum` and incremented
      before each use. */
  function Number(drafts: seq<Draft>, chromaNum: nat): (r: seq<AssetData>)
    ensures |r| == |drafts|
  {
    if drafts == [] then []
    else
      [Complete(drafts[0], chromaNum)]
      + Number(drafts[1..], chromaNum + if drafts[0].name.None? then 1 else 0)
  }

  /** The i-th asset is the i-th draft's, the counter advanced by the chroma drafts before it. */
  lemma {:induction false} NumberAt(drafts: seq<Draft>, chromaNum: nat, i: nat)
    requires i < |drafts|
    ensures Number(drafts, chromaNum)[i] == Complete(drafts[i], chromaNum + ChromaCount(drafts[..i]))
  {
    if i > 0 {
      NumberAt(drafts[1..], chromaNum + if drafts[0].name.None? then 1 else 0, i - 1);
      assert drafts[..i][1..] == drafts[1..][..i - 1];
    }
  }

  /** The group's assets: `objects.map(...)` with `let chromaNum = 1`. */
  function Classify(objects: seq<StoredObject>, skinsByChampion: map<string, seq<Skin>>, bucket: string)
    : (r: seq<AssetData>)
    ensures |r| == |objects|
  {
    Number(Drafts(objects, skinsByChampion, bucket), 1)
  }

  /** Each asset of a group is its object's draft completed with the counter's value at that
      point: one more than the number of earlier chroma objects of the group, so with DraftOf's
      contract the models the skin table does not name are "Chroma 2", "Chroma 3", … in order. */
  lemma ClassifiedAt(objects: seq<StoredObject>, skinsByChampion: map<string, seq<Skin>>,
                     bucket: string, i: nat)
    requires i < |objects|
    ensures Classify(objects, skinsByChampion, bucket)[i]
            == Complete(DraftOf(objects[i], skinsByChampion, bucket),
                        1 + ChromaCount(Drafts(objects, skinsByChampion, bucket)[..i]))
  {
    NumberAt(Drafts(objects, skinsByChampion, bucket), 1, i);
  }

  lemma {:induction false} ChromaCountConcat(a: seq<Draft>, b: seq<Draft>)
    ensures ChromaCount(a + b) == ChromaCount(a) + ChromaCount(b)
  {
    if a == [] {
      assert a + b == b;
    } else {
      assert (a + b)[1..] == a[1..] + b;
      ChromaCountConcat(a[1..], b);
    }
  }

  /** A later chroma of the group gets a larger number: the counter passes every chroma draft. */
  lemma ChromaNumbersIncrease(drafts: seq<Draft>, i: nat, j: nat)
    requires i < j <= |drafts| && drafts[i].name.None?
    ensures ChromaCount(drafts[..i]) < ChromaCount(drafts[..j])
  {
    assert drafts[..j] == drafts[..i] + drafts[i..j];
    ChromaCountConcat(drafts[..i], drafts[i..j]);
    assert drafts[i..j][0] == drafts[i];
  }

  /** Different numbers give different chroma names. */
  lemma ChromaNameInjective(m: nat, n: nat)
    requires ChromaName(m) == ChromaName(n)
    ensures m == n
  {
    assert NatToString(m) == ChromaName(m)[7..];
    assert NatToString(n) == ChromaName(n)[7..];
    NatToStringInjective(m, n);
  }

  /** Numbering gives no two chroma drafts the same name. */
  lemma NumberedChromasDistinct(drafts: seq<Draft>, chromaNum: nat, i: nat, j: nat)
    requires i < j < |drafts| && drafts[i].name.None? && drafts[j].name.None?
    ensures Number(drafts, chromaNum)[i].name != Number(drafts, chromaNum)[j].name
  {
    var m := chromaNum + ChromaCount(drafts[..i]) + 1;
    var n := chromaNum + ChromaCount(drafts[..j]) + 1;
    NumberAt(drafts, chromaNum, i);
    assert Number(drafts, chromaNum)[i].name == ChromaName(m);
    NumberAt(drafts, chromaNum, j);
    assert Number(drafts, chromaNum)[j].name == ChromaName(n);
    ChromaNumbersIncrease(drafts, i, j);
    if ChromaName(m) == ChromaName(n) {
      ChromaNameInjective(m, n);
    }
  }

  /** No two chroma models of a group get the same name. */
  lemma ChromaNamesDistinct(objects: seq<StoredObject>, skinsByChampion: map<string, seq<Skin>>,
                            bucket: string, i: nat, j: nat)
    requires i < j < |objects|
    requires TakesChroma(objects[i], skinsByChampion) && TakesChroma(objects[j], skinsByChampion)
    ensures Classify(objects, skinsByChampion, bucket)[i].name != Classify(objects, skinsByChampion, bucket)[j].name
  {
    var drafts := Drafts(objects, skinsByChampion, bucket);
    assert drafts[i].name.None? && drafts[j].name.None? by {
      assert drafts[i] == DraftOf(objects[i], skinsByChampion, bucket);
      assert drafts[j] == DraftOf(objects[j], skinsByChampion, bucket);
    }
    NumberedChromasDistinct(drafts, 1, i, j);
  }

  lemma NumberKeepsUri(drafts: seq<Draft>, chromaNum: nat, i: nat)
    requires i < |drafts|
    ensures Number(drafts, chromaNum)[i].uri == drafts[i].uri
  {
    NumberAt(drafts, chromaNum, i);
  }

  /** The uri of each asset of a group is its object's. */
  lemma ClassifiedUri(objects: seq<StoredObject>, skinsByChampion: map<string, seq<Skin>>, bucket: string, k: nat)
    requires k < |objects|
    ensures Classify(objects, skinsByChampion, bucket)[k].uri == Uri(bucket, objects[k].key)
  {
    var drafts := Drafts(objects, skinsByChampion, bucket);
    NumberKeepsUri(drafts, 1, k);
    assert drafts[k] == DraftOf(objects[k], skinsByChampion, bucket);
  }

  /** The callback of the group's `map`: one object's asset, incrementing the group's counter
      `chromaNum` (captured by the callback) before naming a chroma. */
  method MapObject(obj: StoredObject, skinsByChampion: map<string, seq<Skin>>, bucket: string, chromaNum: nat)
      returns (data: AssetData, next: nat)
    ensures data == Complete(DraftOf(obj, skinsByChampion, bucket), chromaNum)
    ensures next == chromaNum + if TakesChroma(obj, skinsByChampion) then 1 else 0
  {
    next := chromaNum;
    var key := obj.key;
    var currentSkin := SkinToken(key);
    var kind := AssetTypeOf(key);
    var name: string;
    if kind == Model {
      var matchingSkin := KnownSkinName(skinsByChampion, obj.characterName, currentSkin);
      if matchingSkin.Some? && matchingSkin.value != "" {
        name := matchingSkin.value;
      } else {
        next := next + 1;
        name := ChromaName(next);
      }
    } else {
      name := SoundName(key);
    }
    data := AssetData(kind, Uri(bucket, key), Url(bucket, key), name, currentSkin);
  }

  /** The group's `map`, with `let chromaNum = 1` shared by the callbacks. */
  method ClassifyGroup(objects: seq<StoredObject>, skinsByChampion: map<string, seq<Skin>>, bucket: string)
      returns (assets: seq<AssetData>)
    ensures assets == Classify(objects, skinsByChampion, bucket)
  {
    ghost var drafts := Drafts(objects, skinsByChampion, bucket);
    var chromaNum := 1;
    assets := [];
    for i := 0 to |objects|
      invariant assets + Number(drafts[i..], chromaNum) == Number(drafts, 1)
    {
      var data, next := MapObject(objects[i], skinsByChampion, bucket, chromaNum);
      assert drafts[i..][1..] == drafts[i + 1..];
      ConcatAssoc(assets, [data], Number(drafts[i + 1..], next));
      assets, chromaNum := assets + [data], next;
    }
  }

  // ---------------------------------------------------------------------------
  // groupBy(objects, "characterName")
  // ---------------------------------------------------------------------------

  /** The character names of the objects, each once, in order of first occurrence. */
  function GroupNames(objects: seq<StoredObject>): (r: seq<string>)
  {
    if objects == [] then []
    else
      var names := GroupNames(objects[..|objects| - 1]);
      var n := objects[|objects| - 1].characterName;
      if n in names then names else names + [n]
  }

  /** The objects with the given character name, in their order. */
  function Members(objects: seq<StoredObject>, name: string): (r: seq<StoredObject>)
    ensures forall x :: x in r <==> x in objects && x.characterName == name
  {
    if objects == [] then []
    else
      var rest := Members(objects[1..], name);
      assert forall x :: x in objects <==> x == objects[0] || x in objects[1..];
      if objects[0].characterName == name then [objects[0]] + rest else rest
  }

  /** A group's members over a concatenation are its members over each part, in order; with
      Members' contract this makes them the objects of the group in their listing order. */
  lemma {:induction false} MembersConcat(a: seq<StoredObject>, b: seq<StoredObject>, name: string)
    ensures Members(a + b, name) == Members(a, name) + Members(b, name)
  {
    if a == [] {
      assert a + b == b;
    } else {
      assert (a + b)[0] == a[0];
      assert (a + b)[1..] == a[1..] + b;
      MembersConcat(a[1..], b, name);
    }
  }

  /** `Object.entries(groupBy(objects, "characterName"))` */
  function GroupBy(objects: seq<StoredObject>): (r: seq<Group>)
    ensures |r| == |GroupNames(objects)|
    ensures forall i :: 0 <= i < |r| ==> r[i] == Group(GroupNames(objects)[i], Members(objects, GroupNames(objects)[i]))
  {
    var names := GroupNames(objects);
    seq(|names|, i requires 0 <= i < |names| => Group(names[i], Members(objects, names[i])))
  }

  /** Where the character name first occurs among the objects. */
  function FirstOccurrence(objects: seq<StoredObject>, name: string): (r: Option<nat>)
    ensures r.Some? ==> r.value < |objects| && objects[r.value].characterName == name
    ensures r.Some? ==> forall l :: 0 <= l < r.value ==> objects[l].characterName != name
    ensures r.None? <==> forall k :: 0 <= k < |objects| ==> objects[k].characterName != name
  {
    if objects == [] then None
    else
      var init := objects[..|objects| - 1];
      var f := FirstOccurrence(init, name);
      assert forall k :: 0 <= k < |init| ==> objects[k] == init[k];
      if f.Some? then f
      else if objects[|objects| - 1].characterName == name then Some(|objects| - 1)
      else None
  }

  /** The groups are exactly the character names that occur, each once, ordered by where each
      first occurs. */
  lemma {:induction false} GroupNamesSpec(objects: seq<StoredObject>)
    ensures forall n :: n in GroupNames(objects) <==> FirstOccurrence(objects, n).Some?
    ensures forall i, j :: 0 <= i < j < |GroupNames(objects)| ==>
              FirstOccurrence(objects, GroupNames(objects)[i]).value
              < FirstOccurrence(objects, GroupNames(objects)[j]).value
    ensures forall i, j :: 0 <= i < j < |GroupNames(objects)| ==> GroupNames(objects)[i] != GroupNames(objects)[j]
  {
    if objects != [] {
      var init := objects[..|objects| - 1];
      var n := objects[|objects| - 1].characterName;
      var names := GroupNames(init);
      GroupNamesSpec(init);
      var r := GroupNames(objects);
      assert forall m :: m in names ==> FirstOccurrence(objects, m) == FirstOccurrence(init, m);
      assert n !in names ==> r == names + [n] && FirstOccurrence(objects, n) == Some(|init|);
      forall i, j | 0 <= i < j < |r|
        ensures FirstOccurrence(objects, r[i]).value < FirstOccurrence(objects, r[j]).value
      {
        assert r[i] in names;
      }
    }
  }

  // ---------------------------------------------------------------------------
  // The upsert batches of a page
  // ---------------------------------------------------------------------------

  /** `assets.map((a) => db.asset.upsert({ ..., create: { ...a, characterId } }))` */
  function GroupUpserts(assets: seq<AssetData>, characterId: nat): (r: seq<Upsert>)
    ensures |r| == |assets|
    ensures forall i :: 0 <= i < |r| ==> r[i] == Upsert(assets[i], characterId)
  {
    seq(|assets|, i requires 0 <= i < |assets| => Upsert(assets[i], characterId))
  }

  /** The upserts of the groups in order, up to the first group whose character is missing. */
  function PageWrites(groups: seq<Group>, characters: map<string, Character>,
                      skinsByChampion: map<string, seq<Skin>>, bucket: string): seq<Upsert>
  {
    if groups == [] || groups[0].name !in characters then []
    else
      GroupUpserts(Classify(groups[0].members, skinsByChampion, bucket), characters[groups[0].name].id)
      + PageWrites(groups[1..], characters, skinsByChampion, bucket)
  }

  /** The asset table after the group loop, one transaction per group, stopping at the first
      group whose character is missing. */
  function WriteGroups(groups: seq<Group>, characters: map<string, Character>, assets: map<string, Asset>,
                       skinsByChampion: map<string, seq<Skin>>, bucket: string): map<string, Asset>
  {
    if groups == [] || groups[0].name !in characters then assets
    else
      var writes := GroupUpserts(Classify(groups[0].members, skinsByChampion, bucket),
                                 characters[groups[0].name].id);
      WriteGroups(groups[1..], characters, ApplyUpserts(assets, writes), skinsByChampion, bucket)
  }

  /** The asset table after `insert(response)`. */
  function InsertPage(page: Page, characters: map<string, Character>, assets: map<string, Asset>,
                      skinsByChampion: map<string, seq<Skin>>, bucket: string): (r: map<string, Asset>)
    ensures page.contents.None? ==> r == assets
  {
    match page.contents
    case None => assets
    case Some(contents) => WriteGroups(GroupBy(StoredObjects(contents)), characters, assets, skinsByChampion, bucket)
  }

  /** One transaction per group comes to the same table as the page's upserts in one batch. */
  lemma {:induction false} WriteGroupsAsBatch(groups: seq<Group>, characters: map<string, Character>,
                                              assets: map<string, Asset>, skinsByChampion: map<string, seq<Skin>>,
                                              bucket: string)
    ensures WriteGroups(groups, characters, assets, skinsByChampion, bucket)
            == ApplyUpserts(assets, PageWrites(groups, characters, skinsByChampion, bucket))
  {
    if groups != [] && groups[0].name in characters {
      var writes := GroupUpserts(Classify(groups[0].members, skinsByChampion, bucket),
                                 characters[groups[0].name].id);
      WriteGroupsAsBatch(groups[1..], characters, ApplyUpserts(assets, writes), skinsByChampion, bucket);
      ApplyUpsertsConcat(assets, writes, PageWrites(groups[1..], characters, skinsByChampion, bucket));
    }
  }

  /** A group whose character is missing ends the page: it and every later group write nothing,
      and the groups before it write what they would alone. */
  lemma {:induction false} MissingCharacterEndsPage(groups: seq<Group>, characters: map<string, Character>,
                                                    skinsByChampion: map<string, seq<Skin>>, bucket: string, j: nat)
    requires j < |groups| && groups[j].name !in characters
    ensures PageWrites(groups, characters, skinsByChampion, bucket)
            == PageWrites(groups[..j], characters, skinsByChampion, bucket)
  {
    if j > 0 && groups[0].name in characters {
      MissingCharacterEndsPage(groups[1..], characters, skinsByChampion, bucket, j - 1);
      assert groups[..j][1..] == groups[1..][..j - 1];
    }
  }

  /** Inserting the same page twice leaves the table as inserting it once: no asset is added and
      every written uri holds the same fields. */
  lemma InsertPageTwice(page: Page, characters: map<string, Character>, assets: map<string, Asset>,
                        skinsByChampion: map<string, seq<Skin>>, bucket: string)
    ensures var once := InsertPage(page, characters, assets, skinsByChampion, bucket);
            InsertPage(page, characters, once, skinsByChampion, bucket) == once
  {
    if page.contents.Some? {
      var groups := GroupBy(StoredObjects(page.contents.value));
      var writes := PageWrites(groups, characters, skinsByChampion, bucket);
      WriteGroupsAsBatch(groups, characters, assets, skinsByChampion, bucket);
      WriteGroupsAsBatch(groups, characters, ApplyUpserts(assets, writes), skinsByChampion, bucket);
      ApplyUpsertsTwice(assets, writes);
    }
  }

  /** Every write of a page names a character of the table. */
  lemma {:induction false} PageWritesUseCharacters(groups: seq<Group>, characters: map<string, Character>,
                                                   skinsByChampion: map<string, seq<Skin>>, bucket: string)
    ensures forall w :: w in PageWrites(groups, characters, skinsByChampion, bucket) ==>
              exists n :: n in characters && characters[n].id == w.characterId
  {
    if groups != [] && groups[0].name in characters {
      PageWritesUseCharacters(groups[1..], characters, skinsByChampion, bucket);
    }
  }

  /** Every object of a group up to the first missing character has a write for its uri. */
  lemma {:induction false} PageWritesCover(groups: seq<Group>, characters: map<string, Character>,
                                           skinsByChampion: map<string, seq<Skin>>, bucket: string, g: nat,
                                           x: StoredObject)
    requires g < |groups| && x in groups[g].members
    requires forall i :: 0 <= i <= g ==> groups[i].name in characters
    ensures exists w :: w in PageWrites(groups, characters, skinsByChampion, bucket) && w.data.uri == Uri(bucket, x.key)
  {
    var rest := PageWrites(groups[1..], characters, skinsByChampion, bucket);
    var first := GroupUpserts(Classify(groups[0].members, skinsByChampion, bucket), characters[groups[0].name].id);
    assert PageWrites(groups, characters, skinsByChampion, bucket) == first + rest;
    if g == 0 {
      var k :| 0 <= k < |groups[0].members| && groups[0].members[k] == x;
      ClassifiedUri(groups[0].members, skinsByChampion, bucket, k);
      assert first[k] in first + rest;
    } else {
      PageWritesCover(groups[1..], characters, skinsByChampion, bucket, g - 1, x);
      var w :| w in rest && w.data.uri == Uri(bucket, x.key);
      assert w in first + rest;
    }
  }

  /** A page whose every object's character exists leaves an asset under every object's uri. */
  lemma InsertPageCovers(page: Page, characters: map<string, Character>, assets: map<string, Asset>,
                         skinsByChampion: map<string, seq<Skin>>, bucket: string)
    requires page.contents.Some?
    requires forall o :: o in StoredObjects(page.contents.value) ==> o.characterName in characters
    ensures forall o :: o in StoredObjects(page.contents.value) ==>
              Uri(bucket, o.key) in InsertPage(page, characters, assets, skinsByChampion, bucket)
  {
    var objects := StoredObjects(page.contents.value);
    var groups := GroupBy(objects);
    var writes := PageWrites(groups, characters, skinsByChampion, bucket);
    GroupNamesSpec(objects);
    WriteGroupsAsBatch(groups, characters, assets, skinsByChampion, bucket);
    forall i | 0 <= i < |groups| ensures groups[i].name in characters {
      var f := FirstOccurrence(objects, GroupNames(objects)[i]).value;
      assert objects[f] in objects;
    }
    forall o | o in objects ensures Uri(bucket, o.key) in InsertPage(page, characters, assets, skinsByChampion, bucket) {
      var f :| 0 <= f < |objects| && objects[f] == o;
      assert FirstOccurrence(objects, o.characterName).Some?;
      var g :| 0 <= g < |GroupNames(objects)| && GroupNames(objects)[g] == o.characterName;
      assert o in groups[g].members;
      PageWritesCover(groups, characters, skinsByChampion, bucket, g, o);
      var w :| w in writes && w.data.uri == Uri(bucket, o.key);
      ApplyUpsertsAt(assets, writes, Uri(bucket, o.key));
    }
  }

  /** `insert(response)` on the tables of `db`. */
  method Insert(db: Db, page: Page, skinsByChampion: map<string, seq<Skin>>, bucket: string)
    requires db.Valid()
    modifies db
    ensures db.Valid()
    ensures db.characters == old(db.characters) && db.nextId == old(db.nextId)
    ensures db.assets == InsertPage(page, old(db.characters), old(db.assets), skinsByChampion, bucket)
  {
    if page.contents.None? {
      return;
    }
    var objects := StoredObjects(page.contents.value);
    var groups := GroupBy(objects);
    for i := 0 to |groups|
      invariant db.Valid()
      invariant db.characters == old(db.characters) && db.nextId == old(db.nextId)
      invariant WriteGroups(groups[i..], db.characters, db.assets, skinsByChampion, bucket)
                == InsertPage(page, old(db.characters), old(db.assets), skinsByChampion, bucket)
    {
      var key := groups[i].name;
      var assets := ClassifyGroup(groups[i].members, skinsByChampion, bucket);
      var character := db.FindCharacter(key);
      if character.None? {
        return;
      }
      var updates := GroupUpserts(assets, character.value.id);
      assert forall w :: w in updates ==> IdInUse(db.characters, w.characterId) by {
        assert db.characters[key].id == character.value.id;
      }
      assert groups[i..][1..] == groups[i + 1..];
      db.Transaction(updates);
    }
  }

  /** The asset table after `insert` ran on each page in turn. */
  function InsertPages(pages: seq<Page>, characters: map<string, Character>, assets: map<string, Asset>,
                       skinsByChampion: map<string, seq<Skin>>, bucket: string): map<string, Asset>
    decreases |pages|
  {
    if pages == [] then assets
    else InsertPages(pages[1..], characters, InsertPage(pages[0], characters, assets, skinsByChampion, bucket),
                     skinsByChampion, bucket)
  }

  /** One traversal of the bucket with `insert` as the callback; `pages` are the pages it handed to
      the callback and `completed` is false when a listing request was rejected. */
  method InsertListing(db: Db, listing: map<Option<string>, Page>, prefix: string,
                       skinsByChampion: map<string, seq<Skin>>, bucket: string)
      returns (pages: seq<Page>, completed: bool)
    requires exists n: nat :: EndsWithin(listing, None, n)
    requires db.Valid()
    modifies db
    ensures db.Valid()
    ensures Run(pages, completed) == Traversal(listing)
    ensures db.characters == old(db.characters) && db.nextId == old(db.nextId)
    ensures db.assets == InsertPages(pages, old(db.characters), old(db.assets), skinsByChampion, bucket)
  {
    var outcome, requests;
    outcome, requests, pages := PerformOnAllObjects(listing, Some(prefix), None);
    completed := outcome.Done?;
    for i := 0 to |pages|
      invariant db.Valid()
      invariant db.characters == old(db.characters) && db.nextId == old(db.nextId)
      invariant InsertPages(pages[i..], db.characters, db.assets, skinsByChampion, bucket)
                == InsertPages(pages, old(db.characters), old(db.assets), skinsByChampion, bucket)
    {
      assert pages[i..][1..] == pages[i + 1..];
      Insert(db, pages[i], skinsByChampion, bucket);
    }
  }

  /** `addAssets` after the skin table is built: the "models", "sfx" and "vo" listings in turn,
      each page inserted; a rejected listing request ends the job, so a later listing runs only
      when every earlier one completed. */
  method AddAssets(db: Db, models: map<Option<string>, Page>, sfx: map<Option<string>, Page>,
                   vo: map<Option<string>, Page>, skinsByChampion: map<string, seq<Skin>>, bucket: string)
      returns (pages: seq<Page>, completed: bool)
    requires exists n: nat :: EndsWithin(models, None, n)
    requires exists n: nat :: EndsWithin(sfx, None, n)
    requires exists n: nat :: EndsWithin(vo, None, n)
    requires db.Valid()
    modifies db
    ensures db.Valid()
    ensures Run(pages, completed) == Traversal(models).AndThen(Traversal(sfx)).AndThen(Traversal(vo))
    ensures db.characters == old(db.characters) && db.nextId == old(db.nextId)
    ensures db.assets == InsertPages(pages, old(db.characters), old(db.assets), skinsByChampion, bucket)
  {
    var more;
    pages, completed := InsertListing(db, models, "models", skinsByChampion, bucket);
    if !completed {
      return;
    }
    more, completed := InsertListing(db, sfx, "sfx", skinsByChampion, bucket);
    InsertPagesConcat(pages, more, old(db.characters), old(db.assets), skinsByChampion, bucket);
    pages := pages + more;
    if !completed {
      return;
    }
    more, completed := InsertListing(db, vo, "vo", skinsByChampion, bucket);
    InsertPagesConcat(pages, more, old(db.characters), old(db.assets), skinsByChampion, bucket);
    pages := pages + more;
  }

  lemma {:induction false} InsertPagesConcat(first: seq<Page>, second: seq<Page>, characters: map<string, Character>,
                                             assets: map<string, Asset>, skinsByChampion: map<string, seq<Skin>>,
                                             bucket: string)
    ensures InsertPages(first + second, characters, assets, skinsByChampion, bucket)
            == InsertPages(second, characters, InsertPages(first, characters, assets, skinsByChampion, bucket),
                           skinsByChampion, bucket)
  {
    if first == [] {
      assert first + second == second;
    } else {
      assert (first + second)[1..] == first[1..] + second;
      InsertPagesConcat(first[1..], second, characters,
                        InsertPage(first[0], characters, assets, skinsByChampion, bucket), skinsByChampion, bucket);
    }
  }
}
