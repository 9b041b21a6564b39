/**
  The `addCharacters` job of bin/jobs/add-characters.ts: list the bucket's "models/" directory
  with delimiter "/", create a character record for every directory name not yet in the table,
  typed by `getCharacterType`; once the whole listing is handled, give every champion-typed
  record the display name `getCharacterDisplayName` finds for it.

  The character table's state is a `Roster` (the records by name and the next autoincrement
  id); the callback and the display-name pass are methods on `Db`, each proved against a
  function of the roster it starts from.
 */
module AddCharacters {
  import opened Wrappers
  import opened Text
  import opened Utils
  import opened Database
  import opened S3

  datatype Roster = Roster(characters: map<string, Character>, nextId: nat)

  // ---------------------------------------------------------------------------
  // Names of the "models/" directories
  // ---------------------------------------------------------------------------

  /** `c.Prefix?.replace(/models\//, "").replace(/\//, "") ?? ""`: the first "models/" and then
      the first "/" are removed. */
  function NameOfPrefix(prefix: Option<string>): (r: string)
    ensures prefix.None? ==> r == ""
    ensures prefix.Some? && Contains(prefix.value, "models/") ==> |r| < |prefix.value| - 6
  {
    if prefix.None? then "" else ReplaceFirst(ReplaceFirst(prefix.value, "models/", ""), "/", "")
  }

  /** The common prefix of a character directory, "models/<name>/", gives back its name. */
  lemma NameOfPrefixRoundTrip(name: string)
    requires '/' !in name
    ensures NameOfPrefix(Some("models/" + name + "/")) == name
  {
    var p := "models/" + name + "/";
    assert IsAt(p, "models/", 0) by {
      assert p[..7] == "models/";
    }
    var q := name + "/";
    assert p[7..] == q;
    assert ReplaceFirst(p, "models/", "") == q by {
      assert p[..0] + "" + p[7..] == q;
    }
    assert IsAt(q, "/", |name|);
    forall j | 0 <= j < |name| ensures !IsAt(q, "/", j) {
      assert q[j] == name[j];
    }
    assert IndexOf(q, "/") == Some(|name|);
    assert q[..|name|] + "" + q[|name| + 1..] == name;
  }

  /** `CommonPrefixes.map(...)`: one name per common prefix, in order. */
  function NamesOfPrefixes(prefixes: seq<CommonPrefix>): (r: seq<string>)
    ensures |r| == |prefixes|
  {
    if prefixes == [] then [] else [NameOfPrefix(prefixes[0].prefix)] + NamesOfPrefixes(prefixes[1..])
  }

  /** The character names of a page; none when the page has no common prefixes. */
  function PageNames(page: Page): (r: seq<string>)
    ensures page.commonPrefixes.None? ==> r == []
  {
    if page.commonPrefixes.None? then [] else NamesOfPrefixes(page.commonPrefixes.value)
  }

  /** Each name is its own prefix's. */
  lemma {:induction false} NamesOfPrefixesAt(prefixes: seq<CommonPrefix>, k: nat)
    requires k < |prefixes|
    ensures NamesOfPrefixes(prefixes)[k] == NameOfPrefix(prefixes[k].prefix)
  {
    if k > 0 {
      NamesOfPrefixesAt(prefixes[1..], k - 1);
    }
  }

  // ---------------------------------------------------------------------------
  // Find-or-create
  // ---------------------------------------------------------------------------

  /** The record `db.character.create({ data: { name, type: getCharacterType(name) } })` adds. */
  function NewCharacter(name: string, id: nat, known: seq<string>): Character
  {
    Character(id, name, GetCharacterType(name, known), None)
  }

  /** `findFirstOrThrow` for each name in order, and `create` when it throws. */
  function FindOrCreate(r: Roster, names: seq<string>, known: seq<string>): Roster
    decreases names
  {
    if names == [] then r
    else if names[0] in r.characters then FindOrCreate(r, names[1..], known)
    else
      var c := NewCharacter(names[0], r.nextId, known);
      FindOrCreate(Roster(r.characters[names[0] := c], r.nextId + 1), names[1..], known)
  }

  /** The roster after find-or-create of one name. */
  function FindOrCreateNext(r: Roster, name: string, known: seq<string>): Roster
  {
    if name in r.characters then r
    else Roster(r.characters[name := NewCharacter(name, r.nextId, known)], r.nextId + 1)
  }

  lemma FindOrCreateStep(r: Roster, names: seq<string>, known: seq<string>)
    requires names != []
    ensures FindOrCreate(r, names, known) == FindOrCreate(FindOrCreateNext(r, names[0], known), names[1..], known)
  {
  }

  /** After find-or-create the table has a record for every name and the old ones, and nothing
      else; the next id has advanced by one per record added. */
  lemma {:induction false} FindOrCreateKeys(r: Roster, names: seq<string>, known: seq<string>)
    decreases names
    ensures var s := FindOrCreate(r, names, known);
            && (forall n :: n in s.characters <==> n in r.characters || n in names)
            && |s.characters| == |r.characters| + (s.nextId - r.nextId)
            && r.nextId <= s.nextId
  {
    if names != [] {
      assert forall n :: n in names <==> n == names[0] || n in names[1..];
      if names[0] in r.characters {
        FindOrCreateKeys(r, names[1..], known);
      } else {
        var next := Roster(r.characters[names[0] := NewCharacter(names[0], r.nextId, known)], r.nextId + 1);
        assert |next.characters| == |r.characters| + 1;
        FindOrCreateKeys(next, names[1..], known);
      }
    }
  }

  /** Find-or-create leaves every existing record as it was. */
  lemma {:induction false} FindOrCreateKeepsRecords(r: Roster, names: seq<string>, known: seq<string>)
    decreases names
    ensures r.characters.Keys <= FindOrCreate(r, names, known).characters.Keys
    ensures forall n :: n in r.characters ==> FindOrCreate(r, names, known).characters[n] == r.characters[n]
  {
    if names != [] {
      FindOrCreateStep(r, names, known);
      FindOrCreateKeepsRecords(FindOrCreateNext(r, names[0], known), names[1..], known);
    }
  }

  /** Each record find-or-create adds is the one `create` makes for its name: typed by
      `getCharacterType`, without a display name, with an id handed out by this pass. */
  lemma {:induction false} FindOrCreateNewRecords(r: Roster, names: seq<string>, known: seq<string>)
    decreases names
    ensures var s := FindOrCreate(r, names, known);
            forall n :: n in s.characters && n !in r.characters ==>
              && s.characters[n] == NewCharacter(n, s.characters[n].id, known)
              && r.nextId <= s.characters[n].id < s.nextId
  {
    if names != [] {
      var next := FindOrCreateNext(r, names[0], known);
      var s := FindOrCreate(r, names, known);
      FindOrCreateStep(r, names, known);
      FindOrCreateNewRecords(next, names[1..], known);
      FindOrCreateKeepsRecords(next, names[1..], known);
      FindOrCreateKeys(next, names[1..], known);
      forall n | n in s.characters && n !in r.characters
        ensures s.characters[n] == NewCharacter(n, s.characters[n].id, known)
        ensures r.nextId <= s.characters[n].id < s.nextId
      {
        if n in next.characters {
          assert n == names[0] && s.characters[n] == next.characters[n];
        }
      }
    }
  }

  /** Names that all have a record already change nothing. */
  lemma {:induction false} FindOrCreateExisting(r: Roster, names: seq<string>, known: seq<string>)
    requires forall n :: n in names ==> n in r.characters
    ensures FindOrCreate(r, names, known) == r
  {
    if names != [] {
      FindOrCreateExisting(r, names[1..], known);
    }
  }

  /** Running the pass again over the same names changes nothing. */
  lemma FindOrCreateTwice(r: Roster, names: seq<string>, known: seq<string>)
    ensures FindOrCreate(FindOrCreate(r, names, known), names, known) == FindOrCreate(r, names, known)
  {
    FindOrCreateKeys(r, names, known);
    FindOrCreateExisting(FindOrCreate(r, names, known), names, known);
  }

  /** Find-or-create keeps the tables valid: names stay keys, ids stay distinct and below the
      next id. */
  lemma {:induction false} FindOrCreateKeepsValid(r: Roster, assets: map<string, Asset>, names: seq<string>,
                                                  known: seq<string>)
    requires TablesValid(r.characters, assets, r.nextId)
    ensures var s := FindOrCreate(r, names, known);
            TablesValid(s.characters, assets, s.nextId)
    decreases names
  {
    if names != [] {
      if names[0] !in r.characters {
        AddCharacterKeepsValid(r.characters, assets, r.nextId, NewCharacter(names[0], r.nextId, known));
      }
      FindOrCreateStep(r, names, known);
      FindOrCreateKeepsValid(FindOrCreateNext(r, names[0], known), assets, names[1..], known);
    }
  }

  /** The pages' names handled in order. */
  function FindOrCreatePages(r: Roster, pages: seq<Page>, known: seq<string>): Roster
    decreases pages
  {
    if pages == [] then r else FindOrCreatePages(FindOrCreate(r, PageNames(pages[0]), known), pages[1..], known)
  }

  /** The callback of the traversal: a page without common prefixes changes nothing; otherwise
      each of its names is found or created, in order. */
  method AddCharactersPage(db: Db, page: Page, known: seq<string>)
    requires db.Valid()
    modifies db
    ensures db.Valid() && db.assets == old(db.assets)
    ensures Roster(db.characters, db.nextId) == FindOrCreate(Roster(old(db.characters), old(db.nextId)), PageNames(page), known)
  {
    if page.commonPrefixes.None? {
      return;
    }
    var characters := PageNames(page);
    for i := 0 to |characters|
      invariant db.Valid() && db.assets == old(db.assets)
      invariant FindOrCreate(Roster(db.characters, db.nextId), characters[i..], known)
                == FindOrCreate(Roster(old(db.characters), old(db.nextId)), characters, known)
    {
      ghost var before := Roster(db.characters, db.nextId);
      FindOrCreateStep(before, characters[i..], known);
      assert characters[i..][1..] == characters[i + 1..];
      var found := db.FindCharacter(characters[i]);
      if found.None? {
        var created := db.CreateCharacter(characters[i], GetCharacterType(characters[i], known));
      }
      assert Roster(db.characters, db.nextId) == FindOrCreateNext(before, characters[i], known);
    }
  }

  // ---------------------------------------------------------------------------
  // Display names
  // ---------------------------------------------------------------------------

  /** The table after `update({ data: { displayName: getCharacterDisplayName(name) } })` on every
      champion-typed record. */
  function WithDisplayNames(characters: map<string, Character>, known: seq<string>): (r: map<string, Character>)
    ensures r.Keys == characters.Keys
  {
    map n | n in characters ::
      if characters[n].kind == Champion
      then SetDisplayName(characters[n], GetCharacterDisplayName(characters[n].name, known))
      else characters[n]
  }

  /** What the pass does to each record: id, name and type stay; only champions change; a
      champion whose name the roster knows (or Jarvan IV) gets its display name, and one it does
      not know keeps the display name it had, since an undefined value leaves the field alone. */
  lemma DisplayNameAt(characters: map<string, Character>, known: seq<string>, n: string)
    requires n in characters
    ensures var c := characters[n];
            var d := WithDisplayNames(characters, known)[n];
            && d.id == c.id && d.name == c.name && d.kind == c.kind
            && (c.kind != Champion ==> d == c)
            && (c.kind == Champion && (IsKnown(c.name, known) || Lower(c.name) == "jarvaniv") ==>
                  d.displayName == GetCharacterDisplayName(c.name, known) && d.displayName.Some?)
            && (c.kind == Champion && !IsKnown(c.name, known) && Lower(c.name) != "jarvaniv" ==>
                  d.displayName == c.displayName)
  {
  }

  /** A second pass changes nothing. */
  lemma DisplayNamesTwice(characters: map<string, Character>, known: seq<string>)
    ensures WithDisplayNames(WithDisplayNames(characters, known), known) == WithDisplayNames(characters, known)
  {
    var once := WithDisplayNames(characters, known);
    var twice := WithDisplayNames(once, known);
    forall n | n in once ensures twice[n] == once[n] {
      DisplayNameAt(characters, known, n);
      DisplayNameAt(once, known, n);
    }
  }

  /** The pass keeps the tables valid: it changes no name, id or key. */
  lemma DisplayNamesKeepValid(characters: map<string, Character>, assets: map<string, Asset>, nextId: nat,
                              known: seq<string>)
    requires TablesValid(characters, assets, nextId)
    ensures TablesValid(WithDisplayNames(characters, known), assets, nextId)
  {
    var r := WithDisplayNames(characters, known);
    forall n | n in characters ensures r[n].id == characters[n].id && r[n].name == characters[n].name {
      DisplayNameAt(characters, known, n);
    }
    forall u | u in assets ensures IdInUse(r, assets[u].characterId) {
      var n :| n in characters && characters[n].id == assets[u].characterId;
      assert r[n].id == characters[n].id;
    }
  }

  /** Every record the job creates as a champion ends with a display name: it is typed a
      champion exactly when the roster knows its name, and then a display name is found. */
  lemma CreatedChampionsNamed(r: Roster, names: seq<string>, known: seq<string>, n: string)
    requires var s := FindOrCreate(r, names, known);
             n in s.characters && n !in r.characters && s.characters[n].kind == Champion
    ensures WithDisplayNames(FindOrCreate(r, names, known).characters, known)[n].displayName.Some?
  {
    var s := FindOrCreate(r, names, known);
    FindOrCreateNewRecords(r, names, known);
    DisplayNameAt(s.characters, known, n);
  }

  /** `findMany({ where: { type: { equals: "champion" } } })`, then one `update` by id per record. */
  method UpdateDisplayNames(db: Db, known: seq<string>)
    requires db.Valid()
    modifies db
    ensures db.Valid() && db.assets == old(db.assets) && db.nextId == old(db.nextId)
    ensures db.characters == WithDisplayNames(old(db.characters), known)
  {
    var champions := map n | n in db.characters && db.characters[n].kind == Champion :: db.characters[n];
    ghost var start := db.characters;
    ghost var target := WithDisplayNames(start, known);
    var todo := champions.Keys;
    while todo != {}
      invariant db.Valid() && db.assets == old(db.assets) && db.nextId == old(db.nextId)
      invariant todo <= champions.Keys
      invariant forall n :: n in db.characters <==> n in start
      invariant forall n :: n in start ==> db.characters[n] == if n in todo then start[n] else target[n]
      decreases todo
    {
      var n :| n in todo;
      var champion := champions[n];
      var displayName := GetCharacterDisplayName(champion.name, known);
      assert target[n] == SetDisplayName(start[n], displayName);
      ghost var prev := db.characters;
      db.UpdateDisplayName(n, displayName);
      assert db.characters == prev[n := target[n]];
      todo := todo - {n};
    }
  }

  // ---------------------------------------------------------------------------
  // The job
  // ---------------------------------------------------------------------------

  /** `addCharacters`: traverse "models/" with delimiter "/", handing each page to the callback;
      when the traversal completes, run the display-name pass. A rejected listing request ends
      the job before the pass. `pages` are the pages the callback received. */
  method AddCharacters(db: Db, listing: map<Option<string>, Page>, known: seq<string>)
      returns (pages: seq<Page>, completed: bool)
    requires exists n: nat :: EndsWithin(listing, None, n)
    requires db.Valid()
    modifies db
    ensures Run(pages, completed) == Traversal(listing)
    ensures db.Valid() && db.assets == old(db.assets)
    ensures var created := FindOrCreatePages(Roster(old(db.characters), old(db.nextId)), pages, known);
            && db.nextId == created.nextId
            && db.characters == if completed then WithDisplayNames(created.characters, known) else created.characters
  {
    var outcome, requests;
    outcome, requests, pages := PerformOnAllObjects(listing, Some("models/"), Some("/"));
    completed := outcome.Done?;
    for i := 0 to |pages|
      invariant db.Valid() && db.assets == old(db.assets)
      invariant FindOrCreatePages(Roster(db.characters, db.nextId), pages[i..], known)
                == FindOrCreatePages(Roster(old(db.characters), old(db.nextId)), pages, known)
    {
      assert pages[i..][1..] == pages[i + 1..];
      AddCharactersPage(db, pages[i], known);
    }
    if completed {
      UpdateDisplayNames(db, known);
    }
  }
}
