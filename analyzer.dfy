/**
 * The keyword symptom matcher. The knowledge base is an ordered list of symptom
 * entries (the order of the loaded document) plus two descriptive tables; analysing
 * a text finds, per entry, the first keyword occurring in it, ignoring case, and
 * recommends the specialty and urgency of the most urgent match.
 */
module SymptomChecker {

  import opened Wrappers

  /** A descriptive record of the knowledge base (a specialty's or an urgency level's). */
  type Info = map<string, string>

  datatype SymptomEntry = SymptomEntry(
    id: string,
    keywords: seq<string>,
    specialty: string,
    urgency: string,
    advice: string)

  datatype KnowledgeBase = KnowledgeBase(
    symptoms: seq<SymptomEntry>,
    specialties: map<string, Info>,
    urgencyLevels: map<string, Info>)

  /** What the matcher works with when the knowledge-base document is missing. */
  function MissingKnowledgeBase(): (kb: KnowledgeBase)
    ensures kb.symptoms == [] && kb.specialties == map[] && kb.urgencyLevels == map[]
  {
    KnowledgeBase([], map[], map[])
  }

  // ---------------------------------------------------------------------------
  // Case folding and substring search.
  // ---------------------------------------------------------------------------

  /** Lower-casing of one character; only the ASCII capitals change. */
  function LowerChar(c: char): (d: char)
    ensures !('A' <= d <= 'Z')
    ensures 'A' <= c <= 'Z' ==> 'a' <= d <= 'z' && d as int - 'a' as int == c as int - 'A' as int
    ensures !('A' <= c <= 'Z') ==> d == c
  {
    if 'A' <= c <= 'Z' then (c as int + 32) as char else c
  }

  function Lower(s: string): (r: string)
    ensures |r| == |s|
    ensures forall i :: 0 <= i < |s| ==> r[i] == LowerChar(s[i])
  {
    seq(|s|, i requires 0 <= i < |s| => LowerChar(s[i]))
  }

  /** Lower-casing twice is lower-casing once. */
  lemma LowerIdempotent(s: string)
    ensures Lower(Lower(s)) == Lower(s)
  {
  }

  /** `needle` occurs in `hay` starting at position `i`. */
  predicate OccursAt(needle: string, hay: string, i: nat)
  {
    i + |needle| <= |hay| && hay[i..i + |needle|] == needle
  }

  /** `needle` occurs in `hay` as a contiguous run; the empty string occurs in every string. */
  predicate IsSubstring(needle: string, hay: string)
  {
    exists i: nat | i <= |hay| :: OccursAt(needle, hay, i)
  }

  /** A keyword hits an already lower-cased text when its lower-cased form occurs in it. */
  predicate Hits(keyword: string, text: string)
  {
    IsSubstring(Lower(keyword), text)
  }

  // ---------------------------------------------------------------------------
  // Matching one entry, then all of them.
  // ---------------------------------------------------------------------------

  /** The first keyword, in list order, that hits the text. */
  function FirstHit(keywords: seq<string>, text: string): (r: Option<string>)
    ensures r.Some? <==> exists j :: 0 <= j < |keywords| && Hits(keywords[j], text)
    ensures r.Some? ==>
      exists j :: 0 <= j < |keywords| && keywords[j] == r.value && Hits(keywords[j], text) &&
        (forall i :: 0 <= i < j ==> !Hits(keywords[i], text))
  {
    if keywords == [] then None
    else if Hits(keywords[0], text) then Some(keywords[0])
    else
      var r := FirstHit(keywords[1..], text);
      assert forall j :: 0 <= j < |keywords[1..]| ==> keywords[1..][j] == keywords[j + 1];
      if r.None? then r
      else
        var j :| 0 <= j < |keywords[1..]| && keywords[1..][j] == r.value && Hits(keywords[1..][j], text) &&
          forall i :: 0 <= i < j ==> !Hits(keywords[1..][i], text);
        assert keywords[j + 1] == r.value && forall i :: 0 <= i < j + 1 ==> !Hits(keywords[i], text);
        r
  }

  /** A recorded match: the entry, the keyword as written in the entry, and the entry's recommendation. */
  datatype Match = Match(
    symptomId: string,
    keywordMatched: string,
    specialty: string,
    urgency: string,
    advice: string)

  function MatchOf(e: SymptomEntry, text: string): (r: Option<Match>)
    ensures r.Some? <==> FirstHit(e.keywords, text).Some?
    ensures r.Some? ==> r.value == Match(e.id, FirstHit(e.keywords, text).value, e.specialty, e.urgency, e.advice)
  {
    match FirstHit(e.keywords, text)
    case None => None
    case Some(k) => Some(Match(e.id, k, e.specialty, e.urgency, e.advice))
  }

  /** The matches of the entries, one at most per entry, in knowledge-base order. */
  function CollectMatches(entries: seq<SymptomEntry>, text: string): (r: seq<Match>)
    ensures |r| <= |entries|
    ensures forall m :: m in r <==> exists i :: 0 <= i < |entries| && MatchOf(entries[i], text) == Some(m)
  {
    if entries == [] then []
    else
      var last := entries[|entries| - 1];
      var init := entries[..|entries| - 1];
      var rest := CollectMatches(init, text);
      assert forall i :: 0 <= i < |init| ==> init[i] == entries[i];
      match MatchOf(last, text)
      case None => rest
      case Some(m) => rest + [m]
  }

  /** Matching respects the knowledge base's order: the matches of a concatenation are concatenated. */
  lemma {:induction false} CollectMatchesAppend(a: seq<SymptomEntry>, b: seq<SymptomEntry>, text: string)
    ensures CollectMatches(a + b, text) == CollectMatches(a, text) + CollectMatches(b, text)
  {
    if b == [] {
      assert a + b == a;
    } else {
      var b' := b[..|b| - 1];
      assert (a + b)[..|a + b| - 1] == a + b';
      assert (a + b)[|a + b| - 1] == b[|b| - 1];
      CollectMatchesAppend(a, b', text);
    }
  }

  /** Symptom ids are the keys of the knowledge base's symptom table, hence distinct. */
  predicate DistinctIds(entries: seq<SymptomEntry>)
  {
    forall i, j :: 0 <= i < j < |entries| ==> entries[i].id != entries[j].id
  }

  predicate DistinctMatchIds(ms: seq<Match>)
  {
    forall i, j :: 0 <= i < j < |ms| ==> ms[i].symptomId != ms[j].symptomId
  }

  /** No entry is reported twice: the matched symptom ids are distinct. */
  lemma {:induction false} MatchesHaveDistinctIds(entries: seq<SymptomEntry>, text: string)
    requires DistinctIds(entries)
    ensures DistinctMatchIds(CollectMatches(entries, text))
  {
    if entries != [] {
      var last := entries[|entries| - 1];
      var init := entries[..|entries| - 1];
      assert DistinctIds(init) by {
        assert forall i :: 0 <= i < |init| ==> init[i] == entries[i];
      }
      MatchesHaveDistinctIds(init, text);
      var rest := CollectMatches(init, text);
      forall m | m in rest ensures m.symptomId != last.id {
        var i :| 0 <= i < |init| && MatchOf(init[i], text) == Some(m);
        assert init[i] == entries[i];
      }
      var ms := CollectMatches(entries, text);
      if MatchOf(last, text).Some? {
        assert ms == rest + [MatchOf(last, text).value];
        forall i, j | 0 <= i < j < |ms| ensures ms[i].symptomId != ms[j].symptomId {
          if j == |rest| {
            assert ms[i] == rest[i] && ms[i] in rest;
            assert ms[j] == MatchOf(last, text).value;
            assert ms[j].symptomId == last.id;
          } else {
            assert ms[i] == rest[i] && ms[j] == rest[j];
          }
        }
      }
    }
  }

  // ---------------------------------------------------------------------------
  // Ordering matches by urgency.
  // ---------------------------------------------------------------------------

  /** The urgency priority: high 3, medium 2, low 1, anything else 0. */
  function UrgencyRank(urgency: string): (n: nat)
    ensures n <= 3
    ensures urgency == "high" ==> n == 3
    ensures urgency == "medium" ==> n == 2
    ensures urgency == "low" ==> n == 1
    ensures n == 0 <==> urgency !in {"high", "medium", "low"}
  {
    if urgency == "high" then 3
    else if urgency == "medium" then 2
    else if urgency == "low" then 1
    else 0
  }

  function Rank(m: Match): nat
  {
    UrgencyRank(m.urgency)
  }

  predicate MostUrgentFirst(s: seq<Match>)
  {
    forall i, j :: 0 <= i < j < |s| ==> Rank(s[i]) >= Rank(s[j])
  }

  /** The matches of one rank, in their order in `s`. */
  function OfRank(s: seq<Match>, k: nat): (r: seq<Match>)
    ensures forall m :: m in r <==> m in s && Rank(m) == k
  {
    if s == [] then []
    else
      assert forall m :: m in s <==> m == s[0] || m in s[1..];
      if Rank(s[0]) == k then [s[0]] + OfRank(s[1..], k) else OfRank(s[1..], k)
  }

  /** In a list sorted most urgent first, the tail is sorted too and nothing outranks the head. */
  lemma HeadOutranksTail(s: seq<Match>)
    requires MostUrgentFirst(s) && s != []
    ensures MostUrgentFirst(s[1..])
    ensures forall m :: m in s ==> Rank(m) <= Rank(s[0])
  {
    forall m | m in s ensures Rank(m) <= Rank(s[0]) {
      var i :| 0 <= i < |s| && s[i] == m;
    }
    assert forall i :: 0 <= i < |s[1..]| ==> s[1..][i] == s[i + 1];
  }

  lemma ConsMostUrgentFirst(x: Match, t: seq<Match>)
    requires MostUrgentFirst(t)
    requires t != [] ==> Rank(t[0]) <= Rank(x)
    ensures MostUrgentFirst([x] + t)
  {
    var s := [x] + t;
    forall i, j | 0 <= i < j < |s| ensures Rank(s[i]) >= Rank(s[j]) {
      assert s[j] == t[j - 1];
      if i > 0 {
        assert s[i] == t[i - 1];
      }
    }
  }

  /** Places `m` before the first element not more urgent than it. */
  function InsertByUrgency(m: Match, s: seq<Match>): (r: seq<Match>)
    ensures multiset(r) == multiset(s) + multiset{m}
    ensures |r| == |s| + 1
    ensures s == [] ==> r == [m]
    ensures s != [] ==> r[0] == m || r[0] == s[0]
  {
    if s == [] then [m]
    else if Rank(m) >= Rank(s[0]) then [m] + s
    else
      assert s == [s[0]] + s[1..];
      [s[0]] + InsertByUrgency(m, s[1..])
  }

  lemma {:induction false} InsertKeepsOrder(m: Match, s: seq<Match>)
    requires MostUrgentFirst(s)
    ensures MostUrgentFirst(InsertByUrgency(m, s))
  {
    if s == [] {
    } else if Rank(m) >= Rank(s[0]) {
      ConsMostUrgentFirst(m, s);
    } else {
      HeadOutranksTail(s);
      InsertKeepsOrder(m, s[1..]);
      var rest := InsertByUrgency(m, s[1..]);
      if |s| > 1 {
        assert s[1..][0] in s;
      }
      ConsMostUrgentFirst(s[0], rest);
    }
  }

  /**
   * A stable sort, most urgent first: the sort the matcher applies to its matches
   * (any stable sort gives the same list, see StableSortIsUnique).
   */
  function SortByUrgency(s: seq<Match>): (r: seq<Match>)
    ensures MostUrgentFirst(r)
    ensures multiset(r) == multiset(s)
  {
    if s == [] then []
    else
      assert s == [s[0]] + s[1..];
      var rest := SortByUrgency(s[1..]);
      InsertKeepsOrder(s[0], rest);
      InsertByUrgency(s[0], rest)
  }

  lemma {:induction false} InsertByUrgencyOfRank(m: Match, s: seq<Match>, k: nat)
    ensures OfRank(InsertByUrgency(m, s), k) == if Rank(m) == k then [m] + OfRank(s, k) else OfRank(s, k)
  {
    if s != [] && Rank(m) < Rank(s[0]) {
      InsertByUrgencyOfRank(m, s[1..], k);
      var r := InsertByUrgency(m, s);
      assert r == [s[0]] + InsertByUrgency(m, s[1..]);
      assert r[0] == s[0] && r[1..] == InsertByUrgency(m, s[1..]);
    }
  }

  /** Stability: the matches of each rank keep their knowledge-base order. */
  lemma {:induction false} SortByUrgencyStable(s: seq<Match>, k: nat)
    ensures OfRank(SortByUrgency(s), k) == OfRank(s, k)
  {
    if s != [] {
      SortByUrgencyStable(s[1..], k);
      InsertByUrgencyOfRank(s[0], SortByUrgency(s[1..]), k);
    }
  }

  /** A list sorted most urgent first is its rank groups laid end to end. */
  function ByRankGroups(s: seq<Match>): seq<Match>
  {
    OfRank(s, 3) + (OfRank(s, 2) + (OfRank(s, 1) + OfRank(s, 0)))
  }

  lemma {:induction false} NoneOfRank(s: seq<Match>, k: nat)
    requires forall m :: m in s ==> Rank(m) < k
    ensures OfRank(s, k) == []
  {
    if s != [] {
      assert s[0] in s;
      assert forall m :: m in s[1..] ==> m in s;
      NoneOfRank(s[1..], k);
    }
  }

  lemma OfRankCons(x: Match, t: seq<Match>, k: nat)
    ensures OfRank([x] + t, k) == if Rank(x) == k then [x] + OfRank(t, k) else OfRank(t, k)
  {
    var s := [x] + t;
    assert s[0] == x && s[1..] == t;
  }

  lemma NoneAbove(x: Match, t: seq<Match>)
    requires forall m :: m in t ==> Rank(m) <= Rank(x)
    ensures forall k :: Rank(x) < k ==> OfRank(t, k) == []
  {
    forall k | Rank(x) < k ensures OfRank(t, k) == [] {
      NoneOfRank(t, k);
    }
  }

  /** Moving one element of rank `r` to the front of its group, as sequence algebra. */
  lemma Regroup(x: Match, r: nat, a3: seq<Match>, a2: seq<Match>, a1: seq<Match>, a0: seq<Match>,
                b3: seq<Match>, b2: seq<Match>, b1: seq<Match>, b0: seq<Match>)
    requires r <= 3
    requires b3 == if r == 3 then [x] + a3 else a3
    requires b2 == if r == 2 then [x] + a2 else a2
    requires b1 == if r == 1 then [x] + a1 else a1
    requires b0 == if r == 0 then [x] + a0 else a0
    requires r < 3 ==> a3 == []
    requires r < 2 ==> a2 == []
    requires r < 1 ==> a1 == []
    ensures b3 + (b2 + (b1 + b0)) == [x] + (a3 + (a2 + (a1 + a0)))
  {
    if r == 3 {
      AppendAssoc([x], a3, a2 + (a1 + a0));
    } else if r == 2 {
      assert a3 + (a2 + (a1 + a0)) == a2 + (a1 + a0);
      AppendAssoc([x], a2, a1 + a0);
    } else if r == 1 {
      assert a3 + (a2 + (a1 + a0)) == a1 + a0;
      AppendAssoc([x], a1, a0);
    } else {
      assert a3 + (a2 + (a1 + a0)) == a0;
    }
  }

  lemma AppendAssoc(p: seq<Match>, q: seq<Match>, u: seq<Match>)
    ensures (p + q) + u == p + (q + u)
  {
  }

  lemma GroupsCons(x: Match, t: seq<Match>)
    requires forall m :: m in t ==> Rank(m) <= Rank(x)
    ensures ByRankGroups([x] + t) == [x] + ByRankGroups(t)
  {
    NoneAbove(x, t);
    OfRankCons(x, t, 3);
    OfRankCons(x, t, 2);
    OfRankCons(x, t, 1);
    OfRankCons(x, t, 0);
    var s := [x] + t;
    Regroup(x, Rank(x), OfRank(t, 3), OfRank(t, 2), OfRank(t, 1), OfRank(t, 0),
            OfRank(s, 3), OfRank(s, 2), OfRank(s, 1), OfRank(s, 0));
  }

  lemma {:induction false} SortedIsRankGroups(s: seq<Match>)
    requires MostUrgentFirst(s)
    ensures s == ByRankGroups(s)
  {
    if s != [] {
      HeadOutranksTail(s);
      SortedIsRankGroups(s[1..]);
      assert forall m :: m in s[1..] ==> m in s;
      GroupsCons(s[0], s[1..]);
      assert s == [s[0]] + s[1..];
    }
  }

  /**
   * Any list that is a most-urgent-first arrangement of `s` keeping each rank's order
   * is the one SortByUrgency yields: a stable sort of the matches is determined.
   */
  lemma StableSortIsUnique(s: seq<Match>, t: seq<Match>)
    requires MostUrgentFirst(t)
    requires forall k :: 0 <= k <= 3 ==> OfRank(t, k) == OfRank(s, k)
    ensures t == SortByUrgency(s)
  {
    var r := SortByUrgency(s);
    SortedIsRankGroups(t);
    SortedIsRankGroups(r);
    forall k | 0 <= k <= 3 ensures OfRank(r, k) == OfRank(s, k) {
      SortByUrgencyStable(s, k);
    }
  }

  // ---------------------------------------------------------------------------
  // The analysis.
  // ---------------------------------------------------------------------------

  datatype Analysis = Analysis(
    hasMatches: bool,
    matches: seq<Match>,
    primarySpecialty: string,
    specialtyInfo: Info,
    urgency: string,
    urgencyInfo: Info,
    advice: string)

  const FALLBACK_ADVICE: string := "Based on your description, we recommend consulting a General Physician for a comprehensive evaluation. They can provide proper diagnosis and refer you to a specialist if needed."

  /** A table lookup with the empty record for a missing key. */
  function InfoFor(table: map<string, Info>, key: string): Info
  {
    if key in table then table[key] else map[]
  }

  /** The answer when nothing matched: a general physician, low urgency, the fallback advice. */
  function NoMatchAnalysis(kb: KnowledgeBase): (r: Analysis)
    ensures !r.hasMatches && r.matches == []
    ensures r.primarySpecialty == "general_physician" && r.urgency == "low" && r.advice == FALLBACK_ADVICE
  {
    Analysis(false, [], "general_physician", InfoFor(kb.specialties, "general_physician"),
             "low", InfoFor(kb.urgencyLevels, "low"), FALLBACK_ADVICE)
  }

  /**
   * Analyses a free-text description against the knowledge base: one scan per entry
   * over its keywords, stopping at the first hit, then the matches sorted most urgent
   * first and the first of them taken as the recommendation.
   */
  method Analyze(kb: KnowledgeBase, input: string) returns (r: Analysis)
    ensures r.matches == SortByUrgency(CollectMatches(kb.symptoms, Lower(input)))
    ensures r.hasMatches <==> CollectMatches(kb.symptoms, Lower(input)) != []
    ensures !r.hasMatches ==> r == NoMatchAnalysis(kb)
    ensures r.hasMatches ==> r.matches != []
    ensures r.hasMatches ==>
      && r.primarySpecialty == r.matches[0].specialty
      && r.urgency == r.matches[0].urgency
      && r.advice == r.matches[0].advice
      && r.specialtyInfo == InfoFor(kb.specialties, r.matches[0].specialty)
      && r.urgencyInfo == InfoFor(kb.urgencyLevels, r.matches[0].urgency)
    ensures r.hasMatches ==> forall m :: m in r.matches ==> Rank(m) <= UrgencyRank(r.urgency)
    ensures kb.symptoms == [] ==> r == NoMatchAnalysis(kb)
  {
    var text := Lower(input);
    var matches: seq<Match> := [];
    var i := 0;
    while i < |kb.symptoms|
      invariant 0 <= i <= |kb.symptoms|
      invariant matches == CollectMatches(kb.symptoms[..i], text)
    {
      var entry := kb.symptoms[i];
      ghost var before := matches;
      var j := 0;
      while j < |entry.keywords|
        invariant 0 <= j <= |entry.keywords|
        invariant FirstHit(entry.keywords, text) == FirstHit(entry.keywords[j..], text)
        invariant matches == before
      {
        var keyword := entry.keywords[j];
        FirstHitStep(entry.keywords, j, text);
        if IsSubstring(Lower(keyword), text) {
          matches := matches + [Match(entry.id, keyword, entry.specialty, entry.urgency, entry.advice)];
          break;
        }
        j := j + 1;
      }
      CollectStep(kb.symptoms, i, text);
      i := i + 1;
    }
    assert kb.symptoms[..|kb.symptoms|] == kb.symptoms;
    if matches == [] {
      r := NoMatchAnalysis(kb);
      return;
    }
    matches := SortByUrgency(matches);
    HeadOutranksTail(matches);
    var primary := matches[0];
    r := Analysis(true, matches, primary.specialty, InfoFor(kb.specialties, primary.specialty),
                  primary.urgency, InfoFor(kb.urgencyLevels, primary.urgency), primary.advice);
  }

  /** One keyword of the scan: a hit ends it, a miss moves on to the next keyword. */
  lemma FirstHitStep(keywords: seq<string>, j: nat, text: string)
    requires j < |keywords|
    ensures Hits(keywords[j], text) ==> FirstHit(keywords[j..], text) == Some(keywords[j])
    ensures !Hits(keywords[j], text) ==> FirstHit(keywords[j..], text) == FirstHit(keywords[j + 1..], text)
  {
    assert keywords[j..][0] == keywords[j];
    assert keywords[j..][1..] == keywords[j + 1..];
  }

  /** One entry of the scan: its match, if any, is appended to those of the entries before it. */
  lemma CollectStep(entries: seq<SymptomEntry>, i: nat, text: string)
    requires i < |entries|
    ensures MatchOf(entries[i], text).None? ==>
      CollectMatches(entries[..i + 1], text) == CollectMatches(entries[..i], text)
    ensures MatchOf(entries[i], text).Some? ==>
      CollectMatches(entries[..i + 1], text) == CollectMatches(entries[..i], text) + [MatchOf(entries[i], text).value]
  {
    var p := entries[..i + 1];
    assert p[..|p| - 1] == entries[..i];
    assert p[|p| - 1] == entries[i];
  }

  /** Only the lower-cased text matters: a description and its lower-cased form match alike. */
  lemma MatchingIgnoresCase(kb: KnowledgeBase, input: string)
    ensures CollectMatches(kb.symptoms, Lower(Lower(input))) == CollectMatches(kb.symptoms, Lower(input))
  {
    LowerIdempotent(input);
  }

  // ---------------------------------------------------------------------------
  // Browsing the knowledge base.
  // ---------------------------------------------------------------------------

  /**
   * The specialty table as loaded: empty when the document is missing, and each listed
   * record is the one an analysis attaches to that specialty (an unlisted one gets none).
   */
  function AllSpecialties(kb: KnowledgeBase): (r: map<string, Info>)
    ensures kb == MissingKnowledgeBase() ==> r == map[]
    ensures forall s :: s in r ==> InfoFor(kb.specialties, s) == r[s]
    ensures forall s :: s !in r ==> InfoFor(kb.specialties, s) == map[]
  {
    kb.specialties
  }

  datatype SymptomSummary = SymptomSummary(id: string, keywords: seq<string>, advice: string)

  /** The entries whose specialty is `specialty`, in knowledge-base order. */
  function EntriesFor(entries: seq<SymptomEntry>, specialty: string): (r: seq<SymptomEntry>)
    ensures forall e :: e in r <==> e in entries && e.specialty == specialty
    ensures |r| <= |entries|
  {
    if entries == [] then []
    else
      var init := entries[..|entries| - 1];
      var last := entries[|entries| - 1];
      assert forall e :: e in entries <==> e in init || e == last;
      var rest := EntriesFor(init, specialty);
      if last.specialty == specialty then rest + [last] else rest
  }

  /** Selection respects order: the selection of a concatenation is the concatenation of selections. */
  lemma {:induction false} EntriesForAppend(a: seq<SymptomEntry>, b: seq<SymptomEntry>, specialty: string)
    ensures EntriesFor(a + b, specialty) == EntriesFor(a, specialty) + EntriesFor(b, specialty)
  {
    if b == [] {
      assert a + b == a;
    } else {
      var b' := b[..|b| - 1];
      assert (a + b)[..|a + b| - 1] == a + b';
      assert (a + b)[|a + b| - 1] == b[|b| - 1];
      EntriesForAppend(a, b', specialty);
    }
  }

  function Summary(e: SymptomEntry): SymptomSummary
  {
    SymptomSummary(e.id, e.keywords, e.advice)
  }

  /** The symptoms of one specialty: id, keywords and advice of each selected entry, in order. */
  method SpecialtySymptoms(kb: KnowledgeBase, specialty: string) returns (r: seq<SymptomSummary>)
    ensures |r| == |EntriesFor(kb.symptoms, specialty)|
    ensures forall i :: 0 <= i < |r| ==> r[i] == Summary(EntriesFor(kb.symptoms, specialty)[i])
  {
    r := [];
    var i := 0;
    while i < |kb.symptoms|
      invariant 0 <= i <= |kb.symptoms|
      invariant |r| == |EntriesFor(kb.symptoms[..i], specialty)|
      invariant forall j :: 0 <= j < |r| ==> r[j] == Summary(EntriesFor(kb.symptoms[..i], specialty)[j])
    {
      var entry := kb.symptoms[i];
      assert kb.symptoms[..i + 1][..i] == kb.symptoms[..i];
      assert kb.symptoms[..i + 1][i] == entry;
      if entry.specialty == specialty {
        r := r + [SymptomSummary(entry.id, entry.keywords, entry.advice)];
      }
      i := i + 1;
    }
    assert kb.symptoms[..|kb.symptoms|] == kb.symptoms;
  }
}
