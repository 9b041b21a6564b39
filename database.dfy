/**
  The two tables the seeding jobs write through Prisma: `character` and `asset`.

  The character table is a map from name to record (the jobs look characters up by
  name and create one only when none has that name), with the next autoincrement id;
  the asset table is a map from uri to record, since every asset write is an upsert
  keyed by uri. `Db` holds the three as fields that its methods update in place.
 */
module Database {
  import opened Wrappers
  import opened Utils

  datatype Character = Character(id: nat, name: string, kind: CharacterType, displayName: Option<string>)

  datatype AssetType = Model | Sfx | Vo

  /** The fields an asset upsert writes on create and on update: `{ type, uri, url, name, skin }`. */
  datatype AssetData = AssetData(kind: AssetType, uri: string, url: string, name: string, skin: string)

  datatype Asset = Asset(characterId: nat, data: AssetData)

  /** `db.asset.upsert({ where: { uri }, update: { ...data }, create: { ...data, characterId } })` */
  datatype Upsert = Upsert(data: AssetData, characterId: nat)

  // ---------------------------------------------------------------------------
  // Table invariants
  // ---------------------------------------------------------------------------

  /** Every record is stored under its own name, ids are below the next id and distinct. */
  ghost predicate CharactersValid(characters: map<string, Character>, nextId: nat)
  {
    && (forall n :: n in characters ==> characters[n].name == n && characters[n].id < nextId)
    && (forall n, m :: n in characters && m in characters && characters[n].id == characters[m].id ==> n == m)
  }

  ghost predicate IdInUse(characters: map<string, Character>, id: nat)
  {
    exists n :: n in characters && characters[n].id == id
  }

  /** Every asset is stored under its own uri and belongs to an existing character. */
  ghost predicate AssetsValid(assets: map<string, Asset>, characters: map<string, Character>)
  {
    forall u :: u in assets ==> assets[u].data.uri == u && IdInUse(characters, assets[u].characterId)
  }

  ghost predicate TablesValid(characters: map<string, Character>, assets: map<string, Asset>, nextId: nat)
  {
    CharactersValid(characters, nextId) && AssetsValid(assets, characters)
  }

  // ---------------------------------------------------------------------------
  // Upserts
  // ---------------------------------------------------------------------------

  /** One upsert: an existing asset gets the new fields and keeps its character; a new asset
      gets the fields and the write's character. */
  function ApplyUpsert(assets: map<string, Asset>, w: Upsert): (r: map<string, Asset>)
    ensures r.Keys == assets.Keys + {w.data.uri}
    ensures r[w.data.uri].data == w.data
    ensures w.data.uri in assets ==> r[w.data.uri].characterId == assets[w.data.uri].characterId
    ensures w.data.uri !in assets ==> r[w.data.uri].characterId == w.characterId
    ensures forall u :: u in assets && u != w.data.uri ==> r[u] == assets[u]
  {
    var u := w.data.uri;
    if u in assets then assets[u := Asset(assets[u].characterId, w.data)]
    else assets[u := Asset(w.characterId, w.data)]
  }

  /** The upserts of a batch applied in order. */
  function ApplyUpserts(assets: map<string, Asset>, writes: seq<Upsert>): map<string, Asset>
  {
    if writes == [] then assets
    else ApplyUpsert(ApplyUpserts(assets, writes[..|writes| - 1]), writes[|writes| - 1])
  }

  /** The fields of the last write to `uri` in the batch. */
  function LastWrite(writes: seq<Upsert>, uri: string): (r: Option<AssetData>)
    ensures r.Some? ==> r.value.uri == uri
    ensures r.None? <==> forall w :: w in writes ==> w.data.uri != uri
    ensures r.Some? ==> exists k :: 0 <= k < |writes| && writes[k].data == r.value
                                  && forall l :: k < l < |writes| ==> writes[l].data.uri != uri
  {
    if writes == [] then None
    else if writes[|writes| - 1].data.uri == uri then Some(writes[|writes| - 1].data)
    else
      var r := LastWrite(writes[..|writes| - 1], uri);
      assert r.None? ==> forall w :: w in writes ==> w.data.uri != uri by {
        if r.None? {
          forall w | w in writes ensures w.data.uri != uri {
            if w != writes[|writes| - 1] {
              var k :| 0 <= k < |writes| && writes[k] == w;
              assert w == writes[..|writes| - 1][k];
            }
          }
        }
      }
      assert r.Some? ==> exists k :: 0 <= k < |writes| && writes[k].data == r.value
                                   && forall l :: k < l < |writes| ==> writes[l].data.uri != uri by {
        if r.Some? {
          var init := writes[..|writes| - 1];
          var k :| 0 <= k < |init| && init[k].data == r.value
                   && forall l :: k < l < |init| ==> init[l].data.uri != uri;
          assert writes[k].data == r.value;
          assert forall l :: k < l < |writes| ==> writes[l].data.uri != uri by {
            forall l | k < l < |writes| ensures writes[l].data.uri != uri {
              if l < |writes| - 1 {
                assert init[l] == writes[l];
              }
            }
          }
        }
      }
      r
  }

  /** The characters the writes of a batch would give to a new asset. */
  function WriterIds(writes: seq<Upsert>): (r: set<nat>)
    ensures forall w :: w in writes ==> w.characterId in r
    ensures forall c :: c in r ==> exists w :: w in writes && w.characterId == c
  {
    set w | w in writes :: w.characterId
  }

  /** What a batch does to each uri: it is present afterwards exactly when it was before or some
      write names it; a written uri holds its last write's fields; an asset that existed keeps
      its character; a new asset belongs to a character of the batch; anything else is unchanged. */
  lemma {:induction false} ApplyUpsertsAt(assets: map<string, Asset>, writes: seq<Upsert>, u: string)
    ensures u in ApplyUpserts(assets, writes) <==> u in assets || LastWrite(writes, u).Some?
    ensures LastWrite(writes, u).Some? ==> ApplyUpserts(assets, writes)[u].data == LastWrite(writes, u).value
    ensures LastWrite(writes, u).Some? && u in assets ==>
              ApplyUpserts(assets, writes)[u].characterId == assets[u].characterId
    ensures LastWrite(writes, u).Some? && u !in assets ==>
              ApplyUpserts(assets, writes)[u].characterId in WriterIds(writes)
    ensures LastWrite(writes, u).None? && u in assets ==> ApplyUpserts(assets, writes)[u] == assets[u]
  {
    if writes != [] {
      var init := writes[..|writes| - 1];
      var w := writes[|writes| - 1];
      ApplyUpsertsAt(assets, init, u);
      assert ApplyUpserts(assets, writes) == ApplyUpsert(ApplyUpserts(assets, init), w);
      if w.data.uri == u {
        assert LastWrite(writes, u) == Some(w.data);
      } else {
        assert LastWrite(writes, u) == LastWrite(init, u);
      }
      assert WriterIds(init) <= WriterIds(writes) by {
        forall c | c in WriterIds(init) ensures c in WriterIds(writes) {
          var x :| x in init && x.characterId == c;
          assert x in writes;
        }
      }
    }
  }

  /** A batch applied after another is the two batches applied as one. */
  lemma {:induction false} ApplyUpsertsConcat(assets: map<string, Asset>, first: seq<Upsert>, second: seq<Upsert>)
    ensures ApplyUpserts(assets, first + second) == ApplyUpserts(ApplyUpserts(assets, first), second)
  {
    if second == [] {
      assert first + second == first;
    } else {
      ApplyUpsertsConcat(assets, first, second[..|second| - 1]);
      assert (first + second)[..|first + second| - 1] == first + second[..|second| - 1];
      assert (first + second)[|first + second| - 1] == second[|second| - 1];
    }
  }

  /** Re-running a batch changes nothing: it adds no asset and rewrites the same fields. */
  lemma ApplyUpsertsTwice(assets: map<string, Asset>, writes: seq<Upsert>)
    ensures ApplyUpserts(ApplyUpserts(assets, writes), writes) == ApplyUpserts(assets, writes)
  {
    var once := ApplyUpserts(assets, writes);
    var twice := ApplyUpserts(once, writes);
    forall u ensures u in twice <==> u in once {
      ApplyUpsertsAt(assets, writes, u);
      ApplyUpsertsAt(once, writes, u);
    }
    forall u | u in once ensures twice[u] == once[u] {
      ApplyUpsertsAt(assets, writes, u);
      ApplyUpsertsAt(once, writes, u);
    }
  }

  /** A batch whose writes name existing characters keeps the asset table valid. */
  lemma UpsertsKeepValid(assets: map<string, Asset>, characters: map<string, Character>, writes: seq<Upsert>)
    requires AssetsValid(assets, characters)
    requires forall w :: w in writes ==> IdInUse(characters, w.characterId)
    ensures AssetsValid(ApplyUpserts(assets, writes), characters)
  {
    var r := ApplyUpserts(assets, writes);
    forall u | u in r ensures r[u].data.uri == u && IdInUse(characters, r[u].characterId) {
      ApplyUpsertsAt(assets, writes, u);
      if u !in assets {
        var w :| w in writes && w.characterId == r[u].characterId;
      }
    }
  }

  // ---------------------------------------------------------------------------
  // Character updates
  // ---------------------------------------------------------------------------

  /** `db.character.update({ data: { displayName } })`: an undefined value leaves the field as it was. */
  function SetDisplayName(c: Character, displayName: Option<string>): (r: Character)
    ensures r.id == c.id && r.name == c.name && r.kind == c.kind
    ensures r.displayName == if displayName.Some? then displayName else c.displayName
  {
    if displayName.Some? then c.(displayName := displayName) else c
  }

  /** Adding a record under a fresh name with the next id keeps the character table valid, and an
      asset table valid before stays valid. */
  lemma AddCharacterKeepsValid(characters: map<string, Character>, assets: map<string, Asset>, nextId: nat,
                               c: Character)
    requires TablesValid(characters, assets, nextId)
    requires c.name !in characters && c.id == nextId
    ensures TablesValid(characters[c.name := c], assets, nextId + 1)
  {
    var r := characters[c.name := c];
    forall u | u in assets ensures IdInUse(r, assets[u].characterId) {
      var n :| n in characters && characters[n].id == assets[u].characterId;
      assert r[n] == characters[n];
    }
  }

  class Db {
    var characters: map<string, Character>
    var assets: map<string, Asset>
    var nextId: nat

    ghost predicate Valid()
      reads this
    {
      TablesValid(characters, assets, nextId)
    }

    /** Empty tables; autoincrement ids start at 1. */
    constructor()
      ensures Valid()
      ensures characters == map[] && assets == map[] && nextId == 1
    {
      characters, assets, nextId := map[], map[], 1;
    }

    /** `db.character.findFirst({ where: { name } })`, `null` as `None`. */
    method FindCharacter(name: string) returns (found: Option<Character>)
      ensures found.Some? <==> name in characters
      ensures found.Some? ==> found.value == characters[name]
    {
      if name in characters {
        found := Some(characters[name]);
      } else {
        found := None;
      }
    }

    /** `db.character.create({ data: { name, type } })` */
    method CreateCharacter(name: string, kind: CharacterType) returns (c: Character)
      requires Valid() && name !in characters
      modifies this
      ensures Valid()
      ensures c == Character(old(nextId), name, kind, None)
      ensures characters == old(characters)[name := c]
      ensures nextId == old(nextId) + 1 && assets == old(assets)
    {
      c := Character(nextId, name, kind, None);
      AddCharacterKeepsValid(characters, assets, nextId, c);
      characters := characters[name := c];
      nextId := nextId + 1;
    }

    /** `db.character.update({ where: { id }, data: { displayName } })` on the record named `name`. */
    method UpdateDisplayName(name: string, displayName: Option<string>)
      requires Valid() && name in characters
      modifies this
      ensures Valid()
      ensures characters == old(characters)[name := SetDisplayName(old(characters[name]), displayName)]
      ensures nextId == old(nextId) && assets == old(assets)
    {
      var c := SetDisplayName(characters[name], displayName);
      var r := characters[name := c];
      forall u | u in assets ensures IdInUse(r, assets[u].characterId) {
        var n :| n in characters && characters[n].id == assets[u].characterId;
        assert r[n].id == characters[n].id;
      }
      characters := r;
    }

    /** `db.$transaction(upserts)`: the whole batch is applied at once. */
    method Transaction(writes: seq<Upsert>)
      requires Valid()
      requires forall w :: w in writes ==> IdInUse(characters, w.characterId)
      modifies this
      ensures Valid()
      ensures assets == ApplyUpserts(old(assets), writes)
      ensures characters == old(characters) && nextId == old(nextId)
    {
      UpsertsKeepValid(assets, characters, writes);
      assets := ApplyUpserts(assets, writes);
    }
  }
}
