/** The players form (src/PlayersModal.ts): a working list of player records
    seeded from the document's front-matter, edited in place by the form's
    buttons and fields, cleaned and written back on save. */
module PlayersModal {
  import opened Wrappers
  import opened Seqs
  import opened Player

  /** A player record as the form holds it: a JavaScript object, whose keys
      the save step may delete. */
  type Record = map<string, Value>

  /** The record "Add player below" inserts and the empty list is seeded with. */
  function BlankRecord(): Record {
    map["name" := Str("")]
  }

  /** `frontmatter.players`: a key that is absent reads as undefined. */
  function PlayersField(frontmatter: map<string, Value>): Value {
    if "players" in frontmatter then frontmatter["players"] else Undefined
  }

  /** The objects behind values that passed `isPlayer`. */
  function Records(players: seq<Value>): seq<Record>
    requires forall i :: 0 <= i < |players| ==> players[i].Obj?
  {
    seq(|players|, i requires 0 <= i < |players| => players[i].fields)
  }

  /** The list as it is written into the front-matter. */
  function ToValue(records: seq<Record>): Value {
    Arr(seq(|records|, i requires 0 <= i < |records| => Obj(records[i])))
  }

  /** The list `onOpen` leaves in the form for a document's front-matter. */
  function OpenedPlayers(frontmatter: map<string, Value>): seq<Record> {
    var parsed := ConformingPlayers(PlayersField(frontmatter));
    ConformingAreObjects(PlayersField(frontmatter));
    if |parsed| == 0 then [BlankRecord()] else Records(parsed)
  }

  lemma ConformingAreObjects(input: Value)
    ensures forall i :: 0 <= i < |ConformingPlayers(input)| ==> ConformingPlayers(input)[i].Obj?
  {
  }

  /** The values `save` deletes: undefined, null and the empty string. `false`,
      0 and NaN are kept. */
  predicate IsEmptyField(v: Value) {
    v == Undefined || v == Null || v == Str("")
  }

  /** A record after `save` has deleted its empty fields. */
  function WithoutEmptyFields(r: Record): Record {
    map k | k in r && !IsEmptyField(r[k]) :: r[k]
  }

  /** `Object.keys(player).length > 0`. */
  predicate HasFields(r: Record) {
    |r.Keys| > 0
  }

  /** The list `save` writes: every record without its empty fields, and the
      records left with no field dropped. */
  function CleanPlayers(players: seq<Record>): seq<Record> {
    Filter(HasFields, Map(WithoutEmptyFields, players))
  }

  /** The forEach over `Object.entries(player)` that deletes every empty field. */
  method DeleteEmptyFields(player: Record) returns (cleaned: Record)
    ensures cleaned == WithoutEmptyFields(player)
  {
    cleaned := player;
    var entries := player.Keys;
    while entries != {}
      invariant entries <= player.Keys
      invariant forall k :: k in cleaned <==> k in player && (k in entries || !IsEmptyField(player[k]))
      invariant forall k :: k in cleaned ==> cleaned[k] == player[k]
      decreases entries
    {
      var key :| key in entries;
      var value := player[key];
      if value == Undefined || value == Null || value == Str("") {
        cleaned := cleaned - {key};
      }
      entries := entries - {key};
    }
  }

  /** `players.filter((player) => Object.keys(player).length > 0)`. */
  method KeepRecordsWithFields(list: seq<Record>) returns (kept: seq<Record>)
    ensures kept == Filter(HasFields, list)
  {
    kept := [];
    for j := 0 to |list|
      invariant kept == Filter(HasFields, list[..j])
    {
      FilterSnoc(HasFields, list[..j], list[j]);
      assert list[..j + 1] == list[..j] + [list[j]];
      if |list[j].Keys| > 0 {
        kept := kept + [list[j]];
      }
    }
    assert list[..|list|] == list;
  }

  class Modal {
    /** The working copy of the list the form edits. */
    var players: seq<Record>
    /** The target document's front-matter; a document without one reads as {}. */
    var frontmatter: map<string, Value>

    constructor (frontmatter: map<string, Value>)
      ensures this.frontmatter == frontmatter && players == []
    {
      this.frontmatter := frontmatter;
      players := [];
    }

    /** `onOpen`: parse the front-matter's list; seed it with a blank record
        if nothing usable was there. */
    method OnOpen()
      modifies this`players
      ensures players == OpenedPlayers(frontmatter)
      ensures |players| > 0
    {
      var parsed := ParsePlayers(PlayersField(frontmatter));
      ConformingAreObjects(PlayersField(frontmatter));
      players := Records(parsed);
      if |players| == 0 {
        players := players + [BlankRecord()];
      }
    }

    /** The "Remove" button of section `index`, offered only while the form
        holds more than one record: `players.splice(index, 1)`. */
    method Remove(index: nat)
      requires |players| > 1 && index < |players|
      modifies this`players
      ensures players == old(players[..index] + players[index + 1..])
      ensures |players| == old(|players|) - 1
      ensures forall k :: 0 <= k < index ==> players[k] == old(players[k])
      ensures forall k :: index <= k < |players| ==> players[k] == old(players[k + 1])
      ensures |players| > 0
    {
      players := players[..index] + players[index + 1..];
    }

    /** "Add player below" on section `index`: `players.splice(index + 1, 0, { name: "" })`. */
    method AddBelow(index: nat)
      requires index < |players|
      modifies this`players
      ensures players == old(players[..index + 1]) + [BlankRecord()] + old(players[index + 1..])
      ensures |players| == old(|players|) + 1
      ensures forall k :: 0 <= k <= index ==> players[k] == old(players[k])
      ensures players[index + 1] == BlankRecord()
      ensures forall k :: index + 1 < k < |players| ==> players[k] == old(players[k - 1])
    {
      players := players[..index + 1] + [BlankRecord()] + players[index + 1..];
    }

    /** The Name field of section `index`: `player.name = value`. */
    method SetName(index: nat, value: string)
      requires index < |players|
      modifies this`players
      ensures players == old(players[index := players[index]["name" := Str(value)]])
    {
      players := players[index := players[index]["name" := Str(value)]];
    }

    /** The Score field: `player.score = parseInt(value)`, where `parsed` is
        the integer parsed, or None for NaN. */
    method SetScore(index: nat, parsed: Option<int>)
      requires index < |players|
      modifies this`players
      ensures players == old(players[index := players[index]["score" := if parsed.Some? then Num(parsed.value) else NaN]])
    {
      var score := if parsed.Some? then Num(parsed.value) else NaN;
      players := players[index := players[index]["score" := score]];
    }

    /** The Team field: `player.team = value`. */
    method SetTeam(index: nat, value: string)
      requires index < |players|
      modifies this`players
      ensures players == old(players[index := players[index]["team" := Str(value)]])
    {
      players := players[index := players[index]["team" := Str(value)]];
    }

    /** The Position field: `player.position = parseInt(value)`. */
    method SetPosition(index: nat, parsed: Option<int>)
      requires index < |players|
      modifies this`players
      ensures players == old(players[index := players[index]["position" := if parsed.Some? then Num(parsed.value) else NaN]])
    {
      var position := if parsed.Some? then Num(parsed.value) else NaN;
      players := players[index := players[index]["position" := position]];
    }

    /** `save`: delete the empty fields of every record in place, keep the
        records that still have a field, and set the front-matter's `players`
        key to that list, leaving every other key alone. */
    method Save()
      modifies this
      ensures players == Map(WithoutEmptyFields, old(players))
      ensures frontmatter == old(frontmatter)["players" := ToValue(CleanPlayers(old(players)))]
      ensures forall k :: k != "players" ==>
        (k in frontmatter <==> k in old(frontmatter)) && (k in frontmatter ==> frontmatter[k] == old(frontmatter[k]))
    {
      ghost var before := players;
      var i := 0;
      while i < |players|
        invariant 0 <= i <= |players| == |before|
        invariant forall k :: 0 <= k < i ==> players[k] == WithoutEmptyFields(before[k])
        invariant forall k :: i <= k < |players| ==> players[k] == before[k]
        invariant frontmatter == old(frontmatter)
      {
        var cleaned := DeleteEmptyFields(players[i]);
        players := players[i := cleaned];
        i := i + 1;
      }
      assert players == Map(WithoutEmptyFields, before);
      var cleanPlayers := KeepRecordsWithFields(players);
      frontmatter := frontmatter["players" := ToValue(cleanPlayers)];
    }
  }

  /** Cleaning a record deletes exactly its empty fields; every other field,
      `false` and numbers included, keeps its value. */
  lemma WithoutEmptyFieldsSpec(r: Record)
    ensures forall k :: k in WithoutEmptyFields(r) <==> k in r && !IsEmptyField(r[k])
    ensures forall k :: k in WithoutEmptyFields(r) ==> WithoutEmptyFields(r)[k] == r[k]
    ensures forall k :: k in r && (r[k].Bool? || r[k].Num? || r[k].NaN?) ==> k in WithoutEmptyFields(r)
  {
  }

  /** The saved list holds only records with at least one field and no empty
      field, in their original order, and is no longer than the form's list;
      every record that still has a field after cleaning is saved. */
  lemma CleanPlayersSpec(players: seq<Record>)
    ensures |CleanPlayers(players)| <= |players|
    ensures SubsequenceOf(CleanPlayers(players), Map(WithoutEmptyFields, players))
    ensures forall i :: 0 <= i < |CleanPlayers(players)| ==>
      var r := CleanPlayers(players)[i];
      HasFields(r) && forall k :: k in r ==> !IsEmptyField(r[k])
    ensures forall i :: 0 <= i < |players| && HasFields(WithoutEmptyFields(players[i])) ==>
      WithoutEmptyFields(players[i]) in CleanPlayers(players)
  {
    FilterIsSubsequence(HasFields, Map(WithoutEmptyFields, players));
    forall i | 0 <= i < |CleanPlayers(players)|
      ensures var r := CleanPlayers(players)[i]; forall k :: k in r ==> !IsEmptyField(r[k])
    {
      var m := Map(WithoutEmptyFields, players);
      var r := CleanPlayers(players)[i];
      assert r in m;
      var j :| 0 <= j < |m| && m[j] == r;
    }
    forall i | 0 <= i < |players| && HasFields(WithoutEmptyFields(players[i]))
      ensures WithoutEmptyFields(players[i]) in CleanPlayers(players)
    {
      assert Map(WithoutEmptyFields, players)[i] == WithoutEmptyFields(players[i]);
    }
  }

  /** A record with no empty field is left as it is. */
  lemma WithoutEmptyFieldsKeepsClean(r: Record)
    requires forall k :: k in r ==> !IsEmptyField(r[k])
    ensures WithoutEmptyFields(r) == r
  {
  }

  /** Saving twice writes what saving once wrote. */
  lemma {:induction false} CleanPlayersIdempotent(players: seq<Record>)
    ensures CleanPlayers(CleanPlayers(players)) == CleanPlayers(players)
  {
    var c := CleanPlayers(players);
    CleanPlayersSpec(players);
    forall i | 0 <= i < |c| ensures WithoutEmptyFields(c[i]) == c[i] {
      WithoutEmptyFieldsKeepsClean(c[i]);
    }
    assert Map(WithoutEmptyFields, c) == c;
    FilterAllKept(HasFields, c);
  }

  /** Inserting a blank record below section `index` and then removing it
      gives back the list. */
  lemma RemoveUndoesAddBelow(players: seq<Record>, index: nat)
    requires index < |players|
    ensures var added := players[..index + 1] + [BlankRecord()] + players[index + 1..];
      added[..index + 1] + added[index + 2..] == players
  {
  }

  /** A document whose `players` front-matter already holds a clean list of
      players gets that same list written back when the form is reopened and
      saved without edits; an empty list stays empty, since the blank seed
      record cleans away to nothing. */
  lemma OpenThenSaveRoundTrip(frontmatter: map<string, Value>, saved: seq<Record>)
    requires forall i :: 0 <= i < |saved| ==> IsPlayer(Obj(saved[i]))
    requires forall i, k :: 0 <= i < |saved| && k in saved[i] ==> !IsEmptyField(saved[i][k])
    ensures CleanPlayers(OpenedPlayers(frontmatter["players" := ToValue(saved)])) == saved
  {
    var fm := frontmatter["players" := ToValue(saved)];
    var items := ToValue(saved).items;
    FilterAllKept(IsPlayer, items);
    assert PlayersField(fm) == ToValue(saved);
    var reopened := OpenedPlayers(fm);
    if |saved| == 0 {
      assert reopened == [BlankRecord()];
      assert WithoutEmptyFields(BlankRecord()) == map[];
      assert Map(WithoutEmptyFields, reopened) == [map[]];
    } else {
      assert Records(items) == saved;
      assert reopened == saved;
      forall i | 0 <= i < |saved| ensures WithoutEmptyFields(saved[i]) == saved[i] {
        WithoutEmptyFieldsKeepsClean(saved[i]);
      }
      assert Map(WithoutEmptyFields, saved) == saved;
      forall i | 0 <= i < |saved| ensures HasFields(saved[i]) {
        assert "name" in saved[i].Keys;
      }
      FilterAllKept(HasFields, saved);
    }
  }

  /** The form's fields only ever store a string name, a number or NaN as
      score, a string team and a number or NaN as position, so editing a
      record that passes `isPlayer`, or the blank record, never makes it fail;
      only the cleaning in `save` can remove its name. */
  lemma FieldEditsKeepPlayers(r: Record, text: string, parsed: Option<int>)
    requires IsPlayer(Obj(r))
    ensures IsPlayer(Obj(BlankRecord()))
    ensures IsPlayer(Obj(r["name" := Str(text)]))
    ensures IsPlayer(Obj(r["score" := if parsed.Some? then Num(parsed.value) else NaN]))
    ensures IsPlayer(Obj(r["team" := Str(text)]))
    ensures IsPlayer(Obj(r["position" := if parsed.Some? then Num(parsed.value) else NaN]))
  {
  }

  /** A `false` flag and a number survive cleaning: `{name: "A", won: false,
      score: ""}` is saved as `{name: "A", won: false}`. */
  lemma SaveKeepsFalse()
    ensures WithoutEmptyFields(map["name" := Str("A"), "won" := Bool(false), "score" := Str("")])
      == map["name" := Str("A"), "won" := Bool(false)]
  {
  }

  /** On a form whose only record had its name cleared but keeps another
      field (a score, say), save writes that record without its name; it is
      then no longer a player, so the next `onOpen` seeds the form with a blank
      record. */
  lemma NamelessRecordIsLostOnReopen(frontmatter: map<string, Value>, r: Record)
    requires "name" in r && r["name"] == Str("")
    requires HasFields(WithoutEmptyFields(r))
    ensures CleanPlayers([r]) == [WithoutEmptyFields(r)]
    ensures !IsPlayer(Obj(WithoutEmptyFields(r)))
    ensures OpenedPlayers(frontmatter["players" := ToValue(CleanPlayers([r]))]) == [BlankRecord()]
  {
  }

  /** On a form holding any number of records, a record whose name was cleared
      but which keeps another field is still saved, without its name, and the
      next `onOpen` leaves it out of the form. */
  lemma NamelessRecordIsDroppedOnReopen(frontmatter: map<string, Value>, players: seq<Record>, i: nat)
    requires i < |players|
    requires "name" in players[i] && players[i]["name"] == Str("")
    requires HasFields(WithoutEmptyFields(players[i]))
    ensures WithoutEmptyFields(players[i]) in CleanPlayers(players)
    ensures WithoutEmptyFields(players[i]) !in OpenedPlayers(frontmatter["players" := ToValue(CleanPlayers(players))])
  {
  }
}
