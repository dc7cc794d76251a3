/** Person-name suggestions (src/PersonInputSuggest.ts): the link candidates
    under "People/" become suggestions of one of three kinds; with a query they
    are filtered by the host's fuzzy matcher and ranked by its score. */
module PersonInputSuggest {
  import opened Wrappers
  import opened Seqs

  /** Only link targets whose path starts with this prefix are offered. */
  const PeoplePrefix: string := "People/"

  /** A document handle (the host's TFile): its path and its last-modified time. */
  datatype File = File(path: string, mtime: int)

  /** One entry of the host's link index: a path, the document behind it when
      there is one, and the alias the entry was listed under, if any. */
  datatype LinkCandidate = LinkCandidate(path: string, file: Option<File>, alias: Option<string>)

  /** Highlighted spans of a fuzzy match, as [start, end] pairs. */
  type Matches = seq<(int, int)>

  datatype SearchResult = SearchResult(score: int, matches: Matches)

  /** What the host's `prepareFuzzySearch(query)` returns: a matcher that
      rejects a text or scores it. */
  type FuzzySearch = string -> Option<SearchResult>

  datatype Suggestion =
    | FileSuggestion(file: File, path: string, score: int, matches: Option<Matches>)
    | AliasSuggestion(alias: string, file: File, path: string, score: int, matches: Option<Matches>)
    | LinkTextSuggestion(path: string, score: int, matches: Option<Matches>)

  /** The characters JavaScript's `String.prototype.trim` removes: WhiteSpace
      (tab, vertical tab, form feed, space, no-break space, byte order mark and
      the Unicode space separators) and LineTerminator. */
  predicate IsJsWhitespace(c: char) {
    c in {'\t', '\n', '\U{000B}', '\U{000C}', '\r', ' ', '\U{00A0}', '\U{1680}',
          '\U{2000}', '\U{2001}', '\U{2002}', '\U{2003}', '\U{2004}', '\U{2005}',
          '\U{2006}', '\U{2007}', '\U{2008}', '\U{2009}', '\U{200A}',
          '\U{2028}', '\U{2029}', '\U{202F}', '\U{205F}', '\U{3000}', '\U{FEFF}'}
  }

  function TrimStart(s: string): string {
    if s != [] && IsJsWhitespace(s[0]) then TrimStart(s[1..]) else s
  }

  function TrimEnd(s: string): string {
    if s != [] && IsJsWhitespace(s[|s| - 1]) then TrimEnd(s[..|s| - 1]) else s
  }

  /** `String.prototype.trim`. */
  function Trim(s: string): string {
    TrimEnd(TrimStart(s))
  }

  predicate IsBlank(s: string) {
    forall i :: 0 <= i < |s| ==> IsJsWhitespace(s[i])
  }

  lemma {:induction false} TrimStartEmptyIffBlank(s: string)
    ensures TrimStart(s) == "" <==> IsBlank(s)
  {
    if s != [] && IsJsWhitespace(s[0]) {
      TrimStartEmptyIffBlank(s[1..]);
      assert IsBlank(s) <==> IsBlank(s[1..]) by {
        if IsBlank(s[1..]) {
          forall i | 0 <= i < |s| ensures IsJsWhitespace(s[i]) {
            if i > 0 { assert s[i] == s[1..][i - 1]; }
          }
        }
      }
    }
  }

  /** Trimming the end of a text that starts with a non-blank character leaves
      that character. */
  lemma {:induction false} TrimEndKeepsFirst(s: string)
    requires s != [] && !IsJsWhitespace(s[0])
    ensures TrimEnd(s) != ""
  {
    if IsJsWhitespace(s[|s| - 1]) {
      TrimEndKeepsFirst(s[..|s| - 1]);
    }
  }

  lemma {:induction false} TrimStartResult(s: string)
    ensures TrimStart(s) == "" || !IsJsWhitespace(TrimStart(s)[0])
  {
    if s != [] && IsJsWhitespace(s[0]) {
      TrimStartResult(s[1..]);
    }
  }

  /** `query.trim() === ""` holds exactly for queries made only of whitespace,
      the empty query included. */
  lemma TrimEmptyIffBlank(s: string)
    ensures Trim(s) == "" <==> IsBlank(s)
  {
    TrimStartEmptyIffBlank(s);
    TrimStartResult(s);
    if TrimStart(s) != "" {
      TrimEndKeepsFirst(TrimStart(s));
    }
  }

  predicate IsPeople(c: LinkCandidate) {
    PeoplePrefix <= c.path
  }

  /** JavaScript truthiness of `suggestion.alias`: an empty alias counts as none. */
  predicate HasAlias(c: LinkCandidate) {
    c.alias.Some? && c.alias.value != ""
  }

  /** The suggestion a candidate gives when the query is blank: an alias entry
      if it has a document and an alias, a file entry if it has only a document,
      a link-text entry otherwise; documents are scored by their mtime. */
  function BrowseSuggestion(c: LinkCandidate): Suggestion {
    if c.file.Some? then
      if HasAlias(c) then AliasSuggestion(c.alias.value, c.file.value, c.path, c.file.value.mtime, None)
      else FileSuggestion(c.file.value, c.path, c.file.value.mtime, None)
    else LinkTextSuggestion(c.path, 0, None)
  }

  /** The text the matcher is run on: the alias, the document's path, or the
      candidate's own path. */
  function MatchKey(c: LinkCandidate): string {
    if c.file.Some? then (if HasAlias(c) then c.alias.value else c.file.value.path)
    else c.path
  }

  /** The suggestion a candidate gives for a non-blank query, if the matcher
      accepts it. */
  function MatchSuggestion(c: LinkCandidate, search: FuzzySearch): Option<Suggestion> {
    match search(MatchKey(c))
    case None => None
    case Some(res) =>
      Some(
        if c.file.Some? then
          if HasAlias(c) then AliasSuggestion(c.alias.value, c.file.value, c.path, res.score, Some(res.matches))
          else FileSuggestion(c.file.value, c.path, res.score, Some(res.matches))
        else LinkTextSuggestion(c.path, res.score, Some(res.matches)))
  }

  /** The first loop: one suggestion per candidate. */
  function Browse(people: seq<LinkCandidate>): seq<Suggestion> {
    if people == [] then []
    else Browse(people[..|people| - 1]) + [BrowseSuggestion(people[|people| - 1])]
  }

  /** The second loop: one suggestion per accepted candidate. */
  function Matched(people: seq<LinkCandidate>, search: FuzzySearch): seq<Suggestion> {
    if people == [] then []
    else
      var last := people[|people| - 1];
      Matched(people[..|people| - 1], search)
        + match MatchSuggestion(last, search) case Some(s) => [s] case None => []
  }

  /** `s` inserted into `sorted` after every element whose score is at least
      its own: one step of a stable sort by descending score. */
  function InsertByScore(x: Suggestion, sorted: seq<Suggestion>): seq<Suggestion> {
    if sorted == [] || sorted[|sorted| - 1].score >= x.score then sorted + [x]
    else InsertByScore(x, sorted[..|sorted| - 1]) + [sorted[|sorted| - 1]]
  }

  /** `suggestions.sort((a, b) => b.score - a.score)`: a stable sort by
      descending score. */
  function SortByScore(s: seq<Suggestion>): seq<Suggestion> {
    if s == [] then []
    else InsertByScore(s[|s| - 1], SortByScore(s[..|s| - 1]))
  }

  predicate SortedByScore(s: seq<Suggestion>) {
    forall i, j :: 0 <= i < j < |s| ==> s[i].score >= s[j].score
  }

  /** `getSuggestions(query)` over the host's link index `links`, with
      `prepare` standing for `prepareFuzzySearch`. */
  function Suggestions(links: seq<LinkCandidate>, query: string, prepare: string -> FuzzySearch): seq<Suggestion> {
    var people := Filter(IsPeople, links);
    if |people| == 0 then []
    else if Trim(query) == "" then Browse(people)
    else SortByScore(Matched(people, prepare(query)))
  }

  predicate AllScoreAtLeast(s: seq<Suggestion>, bound: int) {
    forall i :: 0 <= i < |s| ==> s[i].score >= bound
  }

  lemma {:induction false} InsertByScorePermutes(x: Suggestion, sorted: seq<Suggestion>)
    ensures multiset(InsertByScore(x, sorted)) == multiset(sorted) + multiset{x}
  {
    if !(sorted == [] || sorted[|sorted| - 1].score >= x.score) {
      InsertByScorePermutes(x, sorted[..|sorted| - 1]);
      assert sorted == sorted[..|sorted| - 1] + [sorted[|sorted| - 1]];
    }
  }

  lemma {:induction false} InsertByScoreKeepsBound(x: Suggestion, s: seq<Suggestion>, bound: int)
    requires AllScoreAtLeast(s, bound) && x.score >= bound
    ensures AllScoreAtLeast(InsertByScore(x, s), bound)
  {
    if !(s == [] || s[|s| - 1].score >= x.score) {
      InsertByScoreKeepsBound(x, s[..|s| - 1], bound);
    }
  }

  lemma {:induction false} InsertByScoreSorted(x: Suggestion, sorted: seq<Suggestion>)
    requires SortedByScore(sorted)
    ensures SortedByScore(InsertByScore(x, sorted))
  {
    if !(sorted == [] || sorted[|sorted| - 1].score >= x.score) {
      var init, last := sorted[..|sorted| - 1], sorted[|sorted| - 1];
      InsertByScoreSorted(x, init);
      InsertByScoreKeepsBound(x, init, last.score);
    }
  }

  /** Sorting yields the same suggestions, ordered by non-increasing score. */
  lemma {:induction false} SortByScoreCorrect(s: seq<Suggestion>)
    ensures SortedByScore(SortByScore(s))
    ensures multiset(SortByScore(s)) == multiset(s)
  {
    if s != [] {
      SortByScoreCorrect(s[..|s| - 1]);
      InsertByScoreSorted(s[|s| - 1], SortByScore(s[..|s| - 1]));
      InsertByScorePermutes(s[|s| - 1], SortByScore(s[..|s| - 1]));
      assert s == s[..|s| - 1] + [s[|s| - 1]];
    }
  }

  /** Where `x` lands: after the prefix `sorted[..j]`, when the element before
      that position scores at least as much as `x` and every element after it
      scores less. */
  lemma {:induction false} InsertByScorePlace(x: Suggestion, sorted: seq<Suggestion>, j: nat)
    requires j <= |sorted|
    requires j == 0 || sorted[j - 1].score >= x.score
    requires forall k :: j <= k < |sorted| ==> sorted[k].score < x.score
    ensures InsertByScore(x, sorted) == sorted[..j] + [x] + sorted[j..]
  {
    if j < |sorted| {
      var init := sorted[..|sorted| - 1];
      InsertByScorePlace(x, init, j);
      assert init[..j] == sorted[..j];
      assert sorted[j..] == init[j..] + [sorted[|sorted| - 1]];
    } else {
      assert sorted[..j] == sorted;
    }
  }

  /** The in-place `suggestions.sort(...)`: an insertion sort that shifts every
      element with a lower score one place right. */
  method SortInPlace(a: array<Suggestion>)
    modifies a
    ensures a[..] == SortByScore(old(a[..]))
  {
    ghost var input := a[..];
    var i := 0;
    while i < a.Length
      invariant 0 <= i <= a.Length
      invariant a[..i] == SortByScore(input[..i])
      invariant a[i..] == input[i..]
    {
      assert a[i] == input[i] && a[i + 1..] == input[i + 1..];
      InsertIntoPrefix(a, i);
      assert input[..i + 1][..i] == input[..i];
      i := i + 1;
    }
    assert input[..a.Length] == input;
  }

  /** One pass of the insertion sort: `a[i]` moves left past every element of
      the prefix `a[..i]` whose score is lower than its own. */
  method InsertIntoPrefix(a: array<Suggestion>, i: nat)
    requires i < a.Length
    modifies a
    ensures a[..i + 1] == InsertByScore(old(a[i]), old(a[..i]))
    ensures a[i + 1..] == old(a[i + 1..])
  {
    var x := a[i];
    ghost var sorted := a[..i];
    var j := i;
    while j > 0 && a[j - 1].score < x.score
      invariant 0 <= j <= i
      invariant forall k :: 0 <= k < j ==> a[k] == sorted[k]
      invariant forall k :: j < k <= i ==> a[k] == sorted[k - 1]
      invariant forall k :: i < k < a.Length ==> a[k] == old(a[k])
      invariant forall k :: j <= k < i ==> sorted[k].score < x.score
    {
      a[j] := a[j - 1];
      j := j - 1;
    }
    a[j] := x;
    InsertByScorePlace(x, sorted, j);
    ghost var r := sorted[..j] + [x] + sorted[j..];
    assert forall k :: 0 <= k <= i ==> a[k] == r[k];
    assert a[..i + 1] == r;
    assert a[i + 1..] == old(a[i + 1..]);
  }

  /** `getSuggestions`: filter the index to "People/", then either list every
      candidate (blank query) or keep the matched ones and sort them. */
  method GetSuggestions(links: seq<LinkCandidate>, inputStr: string, prepare: string -> FuzzySearch)
    returns (suggestions: seq<Suggestion>)
    ensures suggestions == Suggestions(links, inputStr, prepare)
  {
    var people := Filter(IsPeople, links);
    if |people| == 0 {
      return [];
    }
    suggestions := [];
    if Trim(inputStr) == "" {
      for i := 0 to |people|
        invariant suggestions == Browse(people[..i])
      {
        var c := people[i];
        assert people[..i + 1][..i] == people[..i];
        if c.file.Some? {
          if c.alias.Some? && c.alias.value != "" {
            suggestions := suggestions + [AliasSuggestion(c.alias.value, c.file.value, c.path, c.file.value.mtime, None)];
          } else {
            suggestions := suggestions + [FileSuggestion(c.file.value, c.path, c.file.value.mtime, None)];
          }
        } else {
          suggestions := suggestions + [LinkTextSuggestion(c.path, 0, None)];
        }
      }
      assert people[..|people|] == people;
    } else {
      var fuzzySearch := prepare(inputStr);
      for i := 0 to |people|
        invariant suggestions == Matched(people[..i], fuzzySearch)
      {
        var c := people[i];
        assert people[..i + 1][..i] == people[..i];
        if c.file.Some? {
          if c.alias.Some? && c.alias.value != "" {
            var result := fuzzySearch(c.alias.value);
            if result.Some? {
              suggestions := suggestions + [AliasSuggestion(c.alias.value, c.file.value, c.path, result.value.score, Some(result.value.matches))];
            }
          } else {
            var result := fuzzySearch(c.file.value.path);
            if result.Some? {
              suggestions := suggestions + [FileSuggestion(c.file.value, c.path, result.value.score, Some(result.value.matches))];
            }
          }
        } else {
          var result := fuzzySearch(c.path);
          if result.Some? {
            suggestions := suggestions + [LinkTextSuggestion(c.path, result.value.score, Some(result.value.matches))];
          }
        }
      }
      assert people[..|people|] == people;
      var found := suggestions;
      var a := new Suggestion[|found|](k requires 0 <= k < |found| => found[k]);
      assert a[..] == found;
      SortInPlace(a);
      suggestions := a[..];
    }
  }

  /** The link-string generator of the host (`generateMarkdownLink`), given a
      document, the path of the note the link goes into, and an optional
      display alias. */
  type LinkGenerator = (File, string, Option<string>) -> string

  /** `getLinkFromSuggestion`: an unresolved name becomes a wiki link around
      its path; a document is linked by the host, under its alias when the
      suggestion came from one. */
  function GetLinkFromSuggestion(s: Suggestion, sourcePath: string, generate: LinkGenerator): (link: string)
    ensures s.FileSuggestion? ==> link == generate(s.file, sourcePath, None)
    ensures s.AliasSuggestion? ==> link == generate(s.file, sourcePath, Some(s.alias))
  {
    match s
    case LinkTextSuggestion(path, _, _) => "[[" + path + "]]"
    case FileSuggestion(file, _, _, _) => generate(file, sourcePath, None)
    case AliasSuggestion(alias, file, _, _, _) => generate(file, sourcePath, Some(alias))
  }

  /** The link of an unresolved name is its path, verbatim, between "[[" and "]]". */
  lemma LinkTextLinkWrapsPath(s: Suggestion, sourcePath: string, generate: LinkGenerator)
    requires s.LinkTextSuggestion?
    ensures var link := GetLinkFromSuggestion(s, sourcePath, generate);
      && |link| == |s.path| + 4
      && link[..2] == "[[" && link[|link| - 2..] == "]]"
      && link[2..|link| - 2] == s.path
  {
  }

  lemma {:induction false} BrowseAt(people: seq<LinkCandidate>, i: nat)
    requires i < |people|
    ensures |Browse(people)| == |people|
    ensures Browse(people)[i] == BrowseSuggestion(people[i])
  {
    var init := people[..|people| - 1];
    BrowseLength(init);
    if i < |init| {
      BrowseAt(init, i);
    }
  }

  lemma {:induction false} BrowseLength(people: seq<LinkCandidate>)
    ensures |Browse(people)| == |people|
  {
    if people != [] {
      BrowseLength(people[..|people| - 1]);
    }
  }

  /** The matched list holds one suggestion per accepted candidate and nothing else. */
  lemma {:induction false} MatchedMembers(people: seq<LinkCandidate>, search: FuzzySearch)
    ensures |Matched(people, search)| <= |people|
    ensures forall s :: s in Matched(people, search) <==>
      exists c :: c in people && MatchSuggestion(c, search) == Some(s)
  {
    if people != [] {
      var init, last := people[..|people| - 1], people[|people| - 1];
      MatchedMembers(init, search);
      assert people == init + [last];
      forall s | s in Matched(people, search)
        ensures exists c :: c in people && MatchSuggestion(c, search) == Some(s)
      {
        if s in Matched(init, search) {
          var c :| c in init && MatchSuggestion(c, search) == Some(s);
          assert c in people;
        } else {
          assert MatchSuggestion(last, search) == Some(s);
        }
      }
      forall s | exists c :: c in people && MatchSuggestion(c, search) == Some(s)
        ensures s in Matched(people, search)
      {
        var c :| c in people && MatchSuggestion(c, search) == Some(s);
        if c != last {
          assert c in init;
        }
      }
    }
  }

  /** A candidate gives a suggestion for a query exactly when the matcher
      accepts its alias (document with alias), its document's path (document
      without alias) or its own path (no document); the suggestion carries the
      candidate's path and the matcher's score and spans. */
  lemma MatchSuggestionSpec(c: LinkCandidate, search: FuzzySearch)
    ensures c.file.Some? && HasAlias(c) ==> MatchKey(c) == c.alias.value
    ensures c.file.Some? && !HasAlias(c) ==> MatchKey(c) == c.file.value.path
    ensures c.file.None? ==> MatchKey(c) == c.path
    ensures MatchSuggestion(c, search).Some? <==> search(MatchKey(c)).Some?
    ensures MatchSuggestion(c, search).Some? ==>
      var s, res := MatchSuggestion(c, search).value, search(MatchKey(c)).value;
      && s.path == c.path && s.score == res.score && s.matches == Some(res.matches)
      && (s.AliasSuggestion? <==> c.file.Some? && HasAlias(c))
      && (s.FileSuggestion? <==> c.file.Some? && !HasAlias(c))
      && (s.LinkTextSuggestion? <==> c.file.None?)
      && (s.AliasSuggestion? ==> s.alias == c.alias.value)
      && (!s.LinkTextSuggestion? ==> s.file == c.file.value)
  {
  }

  /** Every browsing suggestion carries the path of one of the candidates. */
  lemma {:induction false} BrowsePaths(people: seq<LinkCandidate>)
    ensures forall s :: s in Browse(people) ==> exists c :: c in people && s.path == c.path
  {
    if people != [] {
      var init, last := people[..|people| - 1], people[|people| - 1];
      BrowsePaths(init);
      assert people == init + [last];
    }
  }

  lemma PeopleAreLinks(links: seq<LinkCandidate>, c: LinkCandidate)
    requires c in Filter(IsPeople, links)
    ensures c in links && IsPeople(c)
  {
  }

  /** Every matched suggestion carries the path of one of the candidates. */
  lemma {:induction false} MatchedPaths(people: seq<LinkCandidate>, search: FuzzySearch)
    ensures forall s :: s in Matched(people, search) ==> exists c :: c in people && s.path == c.path
  {
    if people != [] {
      var init, last := people[..|people| - 1], people[|people| - 1];
      MatchedPaths(init, search);
      assert people == init + [last];
    }
  }

  /** Sorting neither adds nor loses a suggestion. */
  lemma SortByScoreMembers(m: seq<Suggestion>)
    ensures forall s :: s in SortByScore(m) <==> s in m
  {
    SortByScoreCorrect(m);
    forall s ensures s in SortByScore(m) <==> s in m {
      assert s in SortByScore(m) <==> s in multiset(SortByScore(m));
      assert s in m <==> s in multiset(m);
    }
  }

  /** Only candidates under "People/" ever produce a suggestion. */
  lemma OnlyPeopleAreSuggested(links: seq<LinkCandidate>, query: string, prepare: string -> FuzzySearch)
    ensures forall s :: s in Suggestions(links, query, prepare) ==>
      exists c :: c in links && IsPeople(c) && s.path == c.path
  {
    var people := Filter(IsPeople, links);
    var r := Suggestions(links, query, prepare);
    if Trim(query) == "" {
      BrowsePaths(people);
    } else {
      MatchedPaths(people, prepare(query));
      SortByScoreMembers(Matched(people, prepare(query)));
    }
    assert forall s :: s in r ==> exists c :: c in people && s.path == c.path;
    forall s | s in r ensures exists c :: c in links && IsPeople(c) && s.path == c.path {
      var c :| c in people && s.path == c.path;
      PeopleAreLinks(links, c);
    }
  }

  /** Without a candidate under "People/" there is nothing to suggest, whatever the query. */
  lemma NoPeopleNoSuggestions(links: seq<LinkCandidate>, query: string, prepare: string -> FuzzySearch)
    requires forall i :: 0 <= i < |links| ==> !IsPeople(links[i])
    ensures Suggestions(links, query, prepare) == []
  {
  }

  /** For a blank query every person is listed once, in index order, unsorted:
      an alias entry for a document listed under a non-empty alias, a file
      entry for any other document (both scored by the document's mtime), a
      link-text entry scored 0 for a name without a document; none carries
      match spans. */
  lemma BlankQueryListsEveryPerson(links: seq<LinkCandidate>, query: string, prepare: string -> FuzzySearch)
    requires IsBlank(query)
    ensures var people, r := Filter(IsPeople, links), Suggestions(links, query, prepare);
      && |r| == |people|
      && forall i :: 0 <= i < |r| ==>
        var c, s := people[i], r[i];
        && s.path == c.path && s.matches == None
        && (s.AliasSuggestion? <==> c.file.Some? && HasAlias(c))
        && (s.AliasSuggestion? ==> s.alias == c.alias.value)
        && (s.FileSuggestion? <==> c.file.Some? && !HasAlias(c))
        && (s.LinkTextSuggestion? <==> c.file.None?)
        && (c.file.Some? ==> s.file == c.file.value && s.score == c.file.value.mtime)
        && (c.file.None? ==> s.score == 0)
  {
    TrimEmptyIffBlank(query);
    var people := Filter(IsPeople, links);
    if |people| > 0 {
      BrowseLength(people);
      forall i | 0 <= i < |people| ensures Browse(people)[i] == BrowseSuggestion(people[i]) {
        BrowseAt(people, i);
      }
    }
  }

  /** For a query with a non-blank character the result is the matched
      suggestions, each person at most once, ranked by non-increasing score. */
  lemma QueryRanksMatchedPeople(links: seq<LinkCandidate>, query: string, prepare: string -> FuzzySearch)
    requires !IsBlank(query)
    ensures var people, r := Filter(IsPeople, links), Suggestions(links, query, prepare);
      && SortedByScore(r)
      && multiset(r) == multiset(Matched(people, prepare(query)))
      && |r| <= |people|
      && forall s :: s in r <==> exists c :: c in people && MatchSuggestion(c, prepare(query)) == Some(s)
  {
    TrimEmptyIffBlank(query);
    var people := Filter(IsPeople, links);
    var m := Matched(people, prepare(query));
    MatchedMembers(people, prepare(query));
    SortByScoreCorrect(m);
    var r := Suggestions(links, query, prepare);
    if |people| > 0 {
      assert |r| == |multiset(r)| == |multiset(m)| == |m|;
      forall s ensures s in r <==> s in m {
        assert s in r <==> s in multiset(r);
        assert s in m <==> s in multiset(m);
      }
    }
  }

  /** At most one suggestion per person, whatever the query. */
  lemma AtMostOnePerPerson(links: seq<LinkCandidate>, query: string, prepare: string -> FuzzySearch)
    ensures |Suggestions(links, query, prepare)| <= |Filter(IsPeople, links)|
  {
    if IsBlank(query) {
      BlankQueryListsEveryPerson(links, query, prepare);
    } else {
      QueryRanksMatchedPeople(links, query, prepare);
    }
  }
}
