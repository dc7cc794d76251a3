# Players modal form — a Dafny model

This project models the logic of an editor plugin. The plugin opens a form for
"player" records (name, score, team, position) stored in a document's
front-matter. The model covers three parts:

- **Player records** (`player.dfy`, module `Player`). JavaScript values are a
  datatype (`Value`) with `typeof` written out. `isPlayer` is a chain of
  `typeof` tests. `parsePlayers` is a loop that keeps the conforming elements of
  an array.
- **Person suggestions** (`suggest.dfy`, module `PersonInputSuggest`). The host's
  link candidates are filtered to the `People/` prefix, and each one becomes an
  alias, file or link-text suggestion. For a non-blank query, the candidates the
  host's fuzzy matcher rejects are dropped and the rest are sorted in place by
  descending score. `getLinkFromSuggestion` builds the link string.
- **The form's working list** (`modal.dfy`, module `PlayersModal`). The class
  `Modal` holds the `players` list and the document's front-matter. Its methods
  are the seeding in `onOpen`, the Remove and "Add player below" splices, the
  four field setters, and `save`. `save` deletes empty fields in place, drops
  records left without fields, and sets the front-matter's `players` key.

`seqs.dfy` holds `Option` and the order-preserving `Filter` that `parsePlayers`
and `save` both use.

The host application's parts are parameters of the model:
- The fuzzy matcher is `prepare: string -> FuzzySearch`, standing for
  `prepareFuzzySearch`.
- The link generator is a `LinkGenerator` function, standing for
  `generateMarkdownLink`.
- The link index is the `links` sequence.
- The document's front-matter is the `frontmatter` map, read by `OnOpen` and
  updated by `Save`.

Save deletes only fields equal to `undefined`, `null` or `""`
(src/PlayersModal.ts:123), so `false` is kept: `{name: "A", won: false,
score: ""}` is saved as `{name: "A", won: false}`
(`PlayersModal.SaveKeepsFalse`).

One consequence of the code is proved. Suppose a record's name is cleared but
the record keeps another field (a score, say). Then save writes it without a
`name`, it is not a player, and the next `onOpen` leaves it out of the form,
whatever other records the form holds
(`PlayersModal.NamelessRecordIsDroppedOnReopen`). When it was the form's only
record, the form is seeded with a blank record instead
(`PlayersModal.NamelessRecordIsLostOnReopen`).

## Model

| member | source | states |
|---|---|---|
| Player.ParsePlayers | src/Player.ts:26-35 | a non-array input gives []; otherwise the result is the input's elements that pass `isPlayer`, in order, so every result passes `isPlayer` and the result is no longer than the input; the final `length > 0 ? players : []` leaves the filtered list unchanged |
| Player.ConformingPlayersAreTheFilteredInput | src/Player.ts:27-34 | the parsed list contains a value exactly when the input array contains it and it passes `isPlayer`; it is a subsequence of the input (input order kept) and no longer than the input; a non-array gives [] |
| Player.OnlyObjectsArePlayers | src/Player.ts:17 | anything that is not a non-null object (null, arrays, strings, numbers, booleans, undefined) fails `isPlayer` |
| Player.IsPlayerFieldTypes | src/Player.ts:16-24 | `IsPlayer` (the model of `isPlayer`, written as the same chain of `typeof` tests) holds of an object iff `name` is present and a string, a present `score` is a number (NaN included) or a string, a present `team` is a string, and a present `position` is a number |
| Player.UncheckedFieldsDoNotMatter | src/Player.ts:1-24 | setting any key other than name/score/team/position, `won` and `firstTimePlayer` included, to any value does not change the `isPlayer` verdict |
| Player.IsPlayerExamples | src/Player.ts:16-24 | `{name:"A",score:5}` and `{name:"A",score:"Gold"}` are players; `{score:5}` and `{name:"A",team:7}` are not; a string-typed `won` is still a player |
| PersonInputSuggest.TrimEmptyIffBlank | src/PersonInputSuggest.ts:49 | `query.trim() === ""` holds iff every character of the query is JavaScript whitespace or a line terminator |
| PersonInputSuggest.SortByScoreCorrect | src/PersonInputSuggest.ts:119 | the sort yields a permutation of its input (same multiset) ordered by non-increasing score |
| PersonInputSuggest.SortInPlace | src/PersonInputSuggest.ts:119 | the in-place sort leaves the array equal to the stable descending-score sort of its old contents |
| PersonInputSuggest.InsertIntoPrefix | src/PersonInputSuggest.ts:119 | one insertion pass places `a[i]` into the prefix `a[..i]` after every element scoring at least as much, and leaves the rest of the array untouched |
| PersonInputSuggest.GetSuggestions | src/PersonInputSuggest.ts:42-122 | the two push loops and the sort compute `Suggestions`: [] without People candidates, one browse entry per person for a blank query, otherwise the matched entries sorted by score |
| PersonInputSuggest.OnlyPeopleAreSuggested | src/PersonInputSuggest.ts:43-46 | every suggestion carries the path of a candidate whose path starts with "People/" |
| PersonInputSuggest.NoPeopleNoSuggestions | src/PersonInputSuggest.ts:47 | if no candidate's path starts with "People/", the result is empty for every query |
| PersonInputSuggest.BlankQueryListsEveryPerson | src/PersonInputSuggest.ts:49-78 | for a whitespace-only query the result has one entry per People candidate, in candidate order: alias (document with a non-empty alias) or file (other documents), both scored by mtime, or link-text scored 0; none has match spans |
| PersonInputSuggest.MatchSuggestionSpec | src/PersonInputSuggest.ts:80-118 | a candidate yields a suggestion iff the matcher accepts its alias (alias case), its document's path (file case) or its own path (link-text case); the suggestion keeps the candidate's path, its alias (alias case) and its document (alias and file cases), and copies the matcher's score and spans |
| PersonInputSuggest.QueryRanksMatchedPeople | src/PersonInputSuggest.ts:79-119 | for a non-blank query the result is sorted by non-increasing score, is a permutation of the matched suggestions, contains a suggestion iff some People candidate produces it, and is no longer than the People candidates |
| PersonInputSuggest.AtMostOnePerPerson | src/PersonInputSuggest.ts:48-121 | whatever the query, there are never more suggestions than People candidates |
| PersonInputSuggest.GetLinkFromSuggestion | src/PersonInputSuggest.ts:158-168 | a file suggestion is linked by the host generator with no alias, and an alias suggestion with its alias as the label |
| PersonInputSuggest.LinkTextLinkWrapsPath | src/PersonInputSuggest.ts:159-161 | a link-text suggestion's link is "[[" + path + "]]": 4 characters longer, bracketed, with the path verbatim inside |
| PlayersModal.KeepRecordsWithFields | src/PlayersModal.ts:129 | the filter loop keeps exactly the records with at least one key, in order: it equals `Filter(HasFields, list)` |
| PlayersModal.DeleteEmptyFields | src/PlayersModal.ts:122-126 | the loop over the record's entries deletes exactly the fields equal to undefined, null or "", leaving the record `WithoutEmptyFields` |
| PlayersModal.Modal.constructor | src/PlayersModal.ts:7-11 | a new form has an empty list and the document's front-matter |
| PlayersModal.Modal.OnOpen | src/PlayersModal.ts:18-23 | the list becomes the parsed `players` front-matter when that is non-empty, else `[{name: ""}]`; either way it is non-empty |
| PlayersModal.Modal.Remove | src/PlayersModal.ts:38-46 | offered only with more than one record; deletes exactly element `index`: earlier elements stay, later ones shift down one, the length drops by one and stays positive |
| PlayersModal.Modal.AddBelow | src/PlayersModal.ts:96-104 | inserts `{name: ""}` at `index + 1`: elements up to `index` stay, later ones shift up one |
| PlayersModal.Modal.SetName | src/PlayersModal.ts:59-61 | only record `index` changes, and only its `name` key, which becomes the entered string |
| PlayersModal.Modal.SetScore | src/PlayersModal.ts:70-72 | only record `index` changes, and only its `score` key, which becomes the parsed number, or NaN |
| PlayersModal.Modal.SetTeam | src/PlayersModal.ts:80-82 | only record `index` changes, and only its `team` key, which becomes the entered string |
| PlayersModal.Modal.SetPosition | src/PlayersModal.ts:91-93 | only record `index` changes, and only its `position` key, which becomes the parsed number, or NaN |
| PlayersModal.FieldEditsKeepPlayers | src/PlayersModal.ts:59-92 | the blank record is a player, and setting the name or team to a string or the score or position to a number or NaN keeps a player a player |
| PlayersModal.Modal.Save | src/PlayersModal.ts:119-135 | every record in the form loses its empty fields in place; the front-matter's `players` key becomes the cleaned records that still have a field, and every other key keeps its presence and value |
| PlayersModal.WithoutEmptyFieldsSpec | src/PlayersModal.ts:122-126 | a key survives cleaning iff it was present with a value other than undefined, null or ""; survivors keep their values, and booleans (false included), numbers and NaN always survive |
| PlayersModal.CleanPlayersSpec | src/PlayersModal.ts:120-129 | the saved list is a subsequence of the cleaned records (order kept), no longer than the form's list, and each of its records has at least one field and no empty field; conversely every record that still has a field after cleaning is in the saved list |
| PlayersModal.CleanPlayersIdempotent | src/PlayersModal.ts:120-129 | cleaning an already-cleaned list gives it back unchanged |
| PlayersModal.RemoveUndoesAddBelow | src/PlayersModal.ts:38-104 | removing the record that "Add player below" just inserted at `index + 1` restores the list |
| PlayersModal.OpenThenSaveRoundTrip | src/PlayersModal.ts:18-134 | if the front-matter holds a list of players with no empty fields, opening and saving without edits writes that same list back (an empty list stays empty) |
| PlayersModal.SaveKeepsFalse | src/PlayersModal.ts:123 | `{name:"A", won:false, score:""}` is cleaned to `{name:"A", won:false}`: false is kept |
| PlayersModal.NamelessRecordIsLostOnReopen | src/PlayersModal.ts:18-129 | for a form whose only record has name "" and keeps a field after cleaning: save writes that record as its cleaned self, the cleaned record is not a player, and opening the form on the saved front-matter yields only the blank record |
| PlayersModal.NamelessRecordIsDroppedOnReopen | src/PlayersModal.ts:18-129 | for a form with any records, a record whose name is "" and which keeps a field after cleaning is in the saved list, and is not in the list the next `onOpen` produces from the saved front-matter |

## Left out

- `renderSuggestion`, `selectSuggestion` (setting the input, the synthetic
  `input` event, closing the popup) and all form construction in `buildForm` and
  `onClose`: these are DOM and UI work with no state of the model.
- `src/main.ts`, the command, the click listener and the active-view test: host
  plumbing. `src/obsidian.d.ts` only supplies the shape of `LinkCandidate`.
- `prepareFuzzySearch`, `generateMarkdownLink`, `getLinkSuggestions`,
  `getFileCache` and `processFrontMatter` are host calls. They appear as
  function parameters, a candidate sequence and the `frontmatter` field. The
  `await` of `processFrontMatter` and the `close()` after save are not modelled.
- `getFileCache(file)?.frontmatter ?? {}`: a missing cache entry and a missing
  front-matter are both modelled as the empty map.
- `parseInt` is JavaScript's own parser. The score and position setters take
  its result as `Option<int>`, with `None` for NaN.
- Numbers in the front-matter and in the form's records (a score such as
  `3.5`) are `Num(int)` here. Only `typeof` and the `=== ""` test look at these
  values, so no result of the model depends on their fractional part.
- Key order: JavaScript objects and the written front-matter keep their keys
  in insertion order, and the model's maps do not. The model does not capture
  where a newly set `score` lands in a record, or where a new `players` key
  lands in the front-matter.
- Fuzzy scores and mtimes are floating-point in JavaScript. They are integers
  here, so the comparator `b.score - a.score` is an exact integer comparison.
- Aliasing: `parsePlayers` returns the very objects of the metadata cache, so
  the form's setters and save's deletions also change the cached front-matter
  objects. The model keeps records as values and does not capture this sharing.
- SortByScoreCorrect: states sortedness and permutation but not stability. The
  sort is defined as a stable insertion sort, and `SortInPlace` is proved equal
  to it. No lemma spells out that equal scores keep their order.
- The `in` operator on arrays is modelled only for the keys a player uses (name,
  score, team, position), none of which an array or its prototypes define.
