/** The player record (src/Player.ts): the structural test `isPlayer` over an
    untyped value, and `parsePlayers`, which extracts the conforming elements of
    an array. */
module Player {
  import opened Seqs

  /** A JavaScript value as it arrives from a document's front-matter or sits in
      a form record. JavaScript numbers are modelled as integers, with NaN (what
      `parseInt` yields for non-numeric text) as a value of its own. */
  datatype Value =
    | Undefined
    | Null
    | Bool(b: bool)
    | Num(n: int)
    | NaN
    | Str(s: string)
    | Arr(items: seq<Value>)
    | Obj(fields: map<string, Value>)

  /** JavaScript's `typeof`: arrays and `null` are both "object". */
  function TypeOf(v: Value): string {
    match v
    case Undefined => "undefined"
    case Bool(_) => "boolean"
    case Num(_) => "number"
    case NaN => "number"
    case Str(_) => "string"
    case Null => "object"
    case Arr(_) => "object"
    case Obj(_) => "object"
  }

  /** JavaScript's `key in v` for the record keys a player uses. An array owns
      only its indices and `length`, and neither Array.prototype nor
      Object.prototype defines name, score, team or position, so only a plain
      object can hold them. */
  predicate Has(v: Value, key: string) {
    v.Obj? && key in v.fields
  }

  function Get(v: Value, key: string): Value
    requires Has(v, key)
  {
    v.fields[key]
  }

  /** `isPlayer`: a non-null object whose `name` is a string, whose `score`, if
      present, is a number or a string, whose `team`, if present, is a string,
      and whose `position`, if present, is a number. `won` and
      `firstTimePlayer` are not looked at. */
  predicate IsPlayer(v: Value) {
    if TypeOf(v) != "object" || v == Null then false
    else if !Has(v, "name") || TypeOf(Get(v, "name")) != "string" then false
    else if Has(v, "score") && TypeOf(Get(v, "score")) !in ["number", "string"] then false
    else if Has(v, "team") && TypeOf(Get(v, "team")) != "string" then false
    else if Has(v, "position") && TypeOf(Get(v, "position")) != "number" then false
    else true
  }

  /** What `parsePlayers` returns: the conforming elements of an array, in order;
      nothing for any value that is not an array. */
  function ConformingPlayers(input: Value): seq<Value> {
    if input.Arr? then Filter(IsPlayer, input.items) else []
  }

  /** `parsePlayers`: a loop that pushes every element passing `isPlayer`, and
      a final `length > 0 ? players : []`. */
  method ParsePlayers(input: Value) returns (players: seq<Value>)
    ensures players == ConformingPlayers(input)
    ensures !input.Arr? ==> players == []
    ensures input.Arr? ==> |players| <= |input.items|
    ensures forall p :: p in players ==> IsPlayer(p)
  {
    if !input.Arr? {
      return [];
    }
    var items := input.items;
    var found: seq<Value> := [];
    for i := 0 to |items|
      invariant found == Filter(IsPlayer, items[..i])
    {
      FilterSnoc(IsPlayer, items[..i], items[i]);
      assert items[..i + 1] == items[..i] + [items[i]];
      if IsPlayer(items[i]) {
        found := found + [items[i]];
      }
    }
    assert items[..|items|] == items;
    players := if |found| > 0 then found else [];
  }

  /** The output of `parsePlayers` is exactly the input's conforming elements:
      each of them, nothing else, in input order, and no more than the input. */
  lemma ConformingPlayersAreTheFilteredInput(input: Value)
    ensures !input.Arr? ==> ConformingPlayers(input) == []
    ensures input.Arr? ==> |ConformingPlayers(input)| <= |input.items|
    ensures input.Arr? ==> SubsequenceOf(ConformingPlayers(input), input.items)
    ensures input.Arr? ==> forall v :: v in ConformingPlayers(input) <==> v in input.items && IsPlayer(v)
  {
    if input.Arr? {
      FilterIsSubsequence(IsPlayer, input.items);
    }
  }

  /** Only a non-null object can be a player. */
  lemma OnlyObjectsArePlayers(v: Value)
    ensures IsPlayer(v) ==> v.Obj?
  {
  }

  /** `isPlayer` as a per-field type check on the record's fields: `name` a
      string; `score` a number (possibly NaN) or a string; `team` a string;
      `position` a number (possibly NaN). */
  lemma IsPlayerFieldTypes(fields: map<string, Value>)
    ensures IsPlayer(Obj(fields)) <==>
      && "name" in fields && fields["name"].Str?
      && ("score" in fields ==> fields["score"].Num? || fields["score"].NaN? || fields["score"].Str?)
      && ("team" in fields ==> fields["team"].Str?)
      && ("position" in fields ==> fields["position"].Num? || fields["position"].NaN?)
  {
  }

  /** Any key other than name, score, team and position, `won` and
      `firstTimePlayer` included, may hold any value without changing the
      verdict: a string-typed `won` is still a player. */
  lemma UncheckedFieldsDoNotMatter(fields: map<string, Value>, key: string, v: Value)
    requires key !in ["name", "score", "team", "position"]
    ensures IsPlayer(Obj(fields[key := v])) == IsPlayer(Obj(fields))
  {
  }

  /** Sample records and their verdicts. */
  lemma IsPlayerExamples()
    ensures IsPlayer(Obj(map["name" := Str("A"), "score" := Num(5)]))
    ensures !IsPlayer(Obj(map["score" := Num(5)]))
    ensures IsPlayer(Obj(map["name" := Str("A"), "score" := Str("Gold")]))
    ensures !IsPlayer(Obj(map["name" := Str("A"), "team" := Num(7)]))
    ensures IsPlayer(Obj(map["name" := Str("A"), "won" := Str("yes")]))
  {
  }
}
