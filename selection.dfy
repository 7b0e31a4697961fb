/**
 * Search candidates returned by the upstream matcher and the selection that
 * `search_anime` applies to them (utils/anime_search.py, the list
 * comprehension and the slice after each successful response).
 */
module Selection {
  import opened Wrappers

  /** The title variants of a catalogue entry; a missing or null one is `None`. */
  datatype Titles = Titles(native: Option<string>, romaji: Option<string>, english: Option<string>)

  /** The `anilist` object of a candidate: catalogue id and titles (missing ones are `None`). */
  datatype AniList = AniList(id: Option<int>, title: Titles)

  /** The `episode` field: absent, explicitly null, or a number. */
  datatype Episode = EpisodeAbsent | EpisodeNull | EpisodeNumber(number: int)

  /** One match: similarity in [0, 1], episode, scene offsets in seconds, catalogue data. */
  datatype Candidate = Candidate(
    similarity: Option<real>,
    episode: Episode,
    from: Option<real>,
    to: Option<real>,
    anilist: Option<AniList>)

  /** Candidates strictly above this similarity are kept. */
  const THRESHOLD: real := 0.87
  /** How many raw candidates are kept when none is above the threshold. */
  const FALLBACK_COUNT := 3

  /** The similarity a candidate is judged by; a missing one counts as 0. */
  function Similarity(c: Candidate): real
  {
    c.similarity.GetOr(0.0)
  }

  predicate Confident(c: Candidate)
  {
    Similarity(c) > THRESHOLD
  }

  /** `s` can be obtained from `t` by deleting elements, keeping the order of the rest. */
  predicate IsSubsequence<T(==)>(s: seq<T>, t: seq<T>)
    decreases |t|
  {
    s == [] || (t != [] && ((s[0] == t[0] && IsSubsequence(s[1..], t[1..])) || IsSubsequence(s, t[1..])))
  }

  lemma {:induction false} PrefixIsSubsequence<T>(t: seq<T>, n: nat)
    requires n <= |t|
    ensures IsSubsequence(t[..n], t)
    decreases n
  {
    if n > 0 {
      assert t[..n][1..] == t[1..][..n - 1];
      PrefixIsSubsequence(t[1..], n - 1);
    }
  }

  /** The candidates above the similarity threshold, in input order; a missing similarity counts as 0. */
  function ConfidentOnly(results: seq<Candidate>): (r: seq<Candidate>)
    ensures forall c :: c in r ==> Confident(c)
    ensures forall c :: multiset(r)[c] == if Confident(c) then multiset(results)[c] else 0
    ensures IsSubsequence(r, results)
    decreases |results|
  {
    if results == [] then []
    else
      var rest := ConfidentOnly(results[1..]);
      assert results == [results[0]] + results[1..];
      if Confident(results[0]) then [results[0]] + rest else rest
  }

  /**
   * What a successful response yields: the confident candidates in input
   * order when there is one, otherwise the first three candidates (or all,
   * when there are fewer).
   */
  function Select(results: seq<Candidate>): (r: seq<Candidate>)
    ensures IsSubsequence(r, results) && |r| <= |results|
    ensures r == [] <==> results == []
    ensures (exists i :: 0 <= i < |results| && Confident(results[i])) ==>
      r == ConfidentOnly(results) && forall c :: c in r ==> Confident(c)
    ensures (forall i :: 0 <= i < |results| ==> !Confident(results[i])) ==>
      r == results[..if |results| < FALLBACK_COUNT then |results| else FALLBACK_COUNT]
  {
    var confident := ConfidentOnly(results);
    if confident != [] then
      SubsequenceIsShorter(confident, results);
      confident
    else
      var n := if |results| < FALLBACK_COUNT then |results| else FALLBACK_COUNT;
      PrefixIsSubsequence(results, n);
      assert forall i :: 0 <= i < |results| ==> !Confident(results[i]) by {
        forall i | 0 <= i < |results|
          ensures !Confident(results[i])
        {
          assert multiset(results)[results[i]] > 0;
        }
      }
      results[..n]
  }

  lemma {:induction false} SubsequenceIsShorter<T>(s: seq<T>, t: seq<T>)
    requires IsSubsequence(s, t)
    ensures |s| <= |t|
    decreases |t|
  {
    if s != [] {
      if s[0] == t[0] && IsSubsequence(s[1..], t[1..]) {
        SubsequenceIsShorter(s[1..], t[1..]);
      } else {
        SubsequenceIsShorter(s, t[1..]);
      }
    }
  }

  function Scored(similarity: real): Candidate
  {
    Candidate(Some(similarity), EpisodeAbsent, None, None, None)
  }

  /** Similarities 0.95, 0.90, 0.80, 0.60 select the first two. */
  lemma SelectKeepsConfident()
    ensures Select([Scored(0.95), Scored(0.90), Scored(0.80), Scored(0.60)]) == [Scored(0.95), Scored(0.90)]
  {
    var high := [Scored(0.95), Scored(0.90), Scored(0.80), Scored(0.60)];
    assert high[1..][1..][1..][1..] == [];
    assert ConfidentOnly(high[1..][1..][1..]) == [];
    assert ConfidentOnly(high[1..][1..]) == [];
    assert ConfidentOnly(high[1..]) == [Scored(0.90)];
    assert ConfidentOnly(high) == [Scored(0.95), Scored(0.90)];
  }

  /** Similarities 0.80, 0.70, 0.60 are all below the threshold, so all three are kept. */
  lemma SelectFallsBackToFirstThree()
    ensures Select([Scored(0.80), Scored(0.70), Scored(0.60)]) == [Scored(0.80), Scored(0.70), Scored(0.60)]
  {
    var low := [Scored(0.80), Scored(0.70), Scored(0.60)];
    assert !Confident(low[0]) && !Confident(low[1]) && !Confident(low[2]);
    assert low[..3] == low;
  }
}
