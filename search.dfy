/** The overlay's search: `filterPrompts` of the newer content script
    (guards missing fields) and of the legacy one (does not), and what the
    legacy `renderResults` manages to render before it throws. */
module Search {
  import opened Values
  import opened Text
  import opened Lists

  /** The field is a non-empty string whose lower-cased form contains the
      (already lower-cased) query: `(f && f.toLowerCase().includes(q))`. */
  predicate FieldMatches(f: Field, lowerQuery: string) {
    f.Str? && f.s != "" && Includes(Lower(f.s), lowerQuery)
  }

  /** The newer filter's test for one prompt: title or text matches. */
  predicate Matches(p: Prompt, lowerQuery: string) {
    FieldMatches(p.title, lowerQuery) || FieldMatches(p.text, lowerQuery)
  }

  /** `filterPrompts(query)` of the newer content script, as the list it
      hands to `renderResults`: the whole cache for an empty query, else the
      prompts whose title or text contains the query case-insensitively,
      in their original order. */
  function FilterPrompts(ps: seq<Prompt>, query: string): (r: seq<Prompt>)
    ensures query == "" ==> r == ps
    ensures query != "" ==> forall p :: p in r <==> p in ps && Matches(p, Lower(query))
    ensures query != "" ==> forall p :: multiset(r)[p] == if Matches(p, Lower(query)) then multiset(ps)[p] else 0
    ensures |r| <= |ps| && IsSubsequence(r, ps)
  {
    if query == "" then
      SubsequenceOfSelf(ps);
      ps
    else
      var lq := Lower(query);
      FilterIsSubsequence(ps, p => Matches(p, lq));
      FilterCounts(ps, p => Matches(p, lq));
      Filter(ps, p => Matches(p, lq))
  }

  /** Filtering the filtered list again with the same query changes
      nothing. */
  lemma FilterPromptsIdempotent(ps: seq<Prompt>, query: string)
    ensures FilterPrompts(FilterPrompts(ps, query), query) == FilterPrompts(ps, query)
  {
    if query != "" {
      var lq := Lower(query);
      FilterIdempotent(ps, p => Matches(p, lq));
    }
  }

  /** The legacy filter's test for one prompt:
      `p.title.toLowerCase().includes(q) || p.text.toLowerCase().includes(q)`.
      `None` stands for the TypeError thrown when a field it reads is
      missing; the text is read only when the title does not match. */
  function LegacyMatch(p: Prompt, lowerQuery: string): (r: Option<bool>)
    ensures r.None? <==> p.title.Absent? || (!Includes(Lower(p.title.s), lowerQuery) && p.text.Absent?)
    ensures r.Some? ==> (r.value <==>
      Includes(Lower(p.title.s), lowerQuery) || (p.text.Str? && Includes(Lower(p.text.s), lowerQuery)))
  {
    match p.title
    case Absent => None
    case Str(t) =>
      if Includes(Lower(t), lowerQuery) then Some(true)
      else
        match p.text
        case Absent => None
        case Str(x) => Some(Includes(Lower(x), lowerQuery))
  }

  /** `promptList.filter(...)` with the legacy test: the first throwing
      element aborts the whole filter. */
  function LegacyFilterAll(ps: seq<Prompt>, lowerQuery: string): (r: Option<seq<Prompt>>)
    ensures r.None? <==> exists k :: 0 <= k < |ps| && LegacyMatch(ps[k], lowerQuery).None?
    ensures r.Some? ==> |r.value| <= |ps| && IsSubsequence(r.value, ps)
    ensures r.Some? ==> forall p :: p in r.value <==> p in ps && LegacyMatch(p, lowerQuery) == Some(true)
    ensures r.Some? ==> forall p :: multiset(r.value)[p] == if LegacyMatch(p, lowerQuery) == Some(true) then multiset(ps)[p] else 0
  {
    if ps == [] then Some([])
    else
      var rest := LegacyFilterAll(ps[1..], lowerQuery);
      assert ps == [ps[0]] + ps[1..];
      assert forall k :: 1 <= k < |ps| ==> ps[k] == ps[1..][k - 1];
      assert forall p :: p in ps <==> p == ps[0] || p in ps[1..];
      match LegacyMatch(ps[0], lowerQuery)
      case None => None
      case Some(b) =>
        match rest
        case None => None
        case Some(rs) =>
          if b then
            assert ([ps[0]] + rs)[1..] == rs;
            Some([ps[0]] + rs)
          else Some(rs)
  }

  /** `filterPrompts(query)` of the legacy content script; `None` when it
      throws, in which case nothing is rendered. A non-empty query throws
      exactly when the test throws on some prompt, and otherwise keeps each
      matching prompt as often as it occurs, in order. */
  function LegacyFilterPrompts(ps: seq<Prompt>, query: string): (r: Option<seq<Prompt>>)
    ensures query == "" ==> r == Some(ps)
    ensures query != "" ==> (r.None? <==> exists k :: 0 <= k < |ps| && LegacyMatch(ps[k], Lower(query)).None?)
    ensures query != "" && r.Some? ==>
      forall p :: multiset(r.value)[p] == if LegacyMatch(p, Lower(query)) == Some(true) then multiset(ps)[p] else 0
    ensures r.Some? ==> IsSubsequence(r.value, ps)
  {
    if query == "" then
      SubsequenceOfSelf(ps);
      Some(ps)
    else LegacyFilterAll(ps, Lower(query))
  }

  /** On records whose title and text are strings the two filters agree. */
  lemma {:induction false} LegacyFilterAgrees(ps: seq<Prompt>, query: string)
    requires forall p :: p in ps ==> WellFormed(p)
    ensures LegacyFilterPrompts(ps, query) == Some(FilterPrompts(ps, query))
  {
    if query != "" {
      var lq := Lower(query);
      LegacyFilterAllAgrees(ps, lq);
    }
  }

  lemma {:induction false} LegacyFilterAllAgrees(ps: seq<Prompt>, lq: string)
    requires lq != []
    requires forall p :: p in ps ==> WellFormed(p)
    ensures LegacyFilterAll(ps, lq) == Some(Filter(ps, p => Matches(p, lq)))
  {
    if ps != [] {
      assert forall p :: p in ps[1..] ==> p in ps;
      LegacyFilterAllAgrees(ps[1..], lq);
      var p := ps[0];
      assert p in ps;
      assert Includes("", lq) == false;
      assert LegacyMatch(p, lq) == Some(Matches(p, lq));
    }
  }

  /** The prompts the legacy `renderResults` turns into result items:
      `truncateText(prompt.text)` throws on the first prompt without text,
      so rendering stops there. */
  function LegacyRendered(ps: seq<Prompt>): (r: seq<Prompt>)
    ensures |r| <= |ps| && r == ps[..|r|]
    ensures forall k :: 0 <= k < |r| ==> r[k].text.Str?
    ensures |r| < |ps| ==> ps[|r|].text.Absent?
  {
    if ps == [] || ps[0].text.Absent? then []
    else
      var rest := LegacyRendered(ps[1..]);
      assert ps[1..][..|rest|] == ps[1..|rest| + 1];
      [ps[0]] + rest
  }
}
