/**
 Query evaluation against a synonym store: equal words, then the direct check (the two
 sets share more than one word), then the one-hop check (the sets of the members of
 each set, united, share more than one word).
 */
module Query {
  import opened JavaText
  import opened SynonymStore

  const SYNONYMS: string := "synonyms"
  const DIFFERENT: string := "different"

  /** Two distinct words lie in both sets. */
  ghost predicate SharesTwo(s1: set<string>, s2: set<string>)
  {
    exists x, y :: x in s1 && x in s2 && y in s1 && y in s2 && x != y
  }

  lemma {:induction false} MoreThanOne(s: set<string>)
    ensures |s| > 1 <==> exists x, y :: x in s && y in s && x != y
  {
    if |s| > 1 {
      var x :| x in s;
      assert |s - {x}| == |s| - 1;
      var y :| y in s - {x};
      assert x in s && y in s && x != y;
    }
    if exists x, y :: x in s && y in s && x != y {
      var x, y :| x in s && y in s && x != y;
      assert {x, y} <= s;
      assert |s - {x, y}| == |s| - 2;
    }
  }

  lemma IntersectionMoreThanOne(s1: set<string>, s2: set<string>)
    ensures |s1 * s2| > 1 <==> SharesTwo(s1, s2)
  {
    MoreThanOne(s1 * s2);
    if SharesTwo(s1, s2) {
      var x, y :| x in s1 && x in s2 && y in s1 && y in s2 && x != y;
      assert x in s1 * s2 && y in s1 * s2;
    }
  }

  /** checkIfRelation: the intersection of the two sets has more than one element. */
  function CheckIfRelation(s1: set<string>, s2: set<string>): (r: bool)
    ensures r <==> SharesTwo(s1, s2)
  {
    IntersectionMoreThanOne(s1, s2);
    |s1 * s2| > 1
  }

  /** Every word reached from a member of s in one step; members with no entry add nothing. */
  ghost function OneHop(store: Store, s: set<string>): set<string>
  {
    set m, w | m in s && m in store && w in store[m] :: w
  }

  /**
   The flatMap of a set through the store: None stands for the null a member without an
   entry would produce, which makes the stream throw.
   */
  function Expand(store: Store, s: set<string>): (r: Option<set<string>>)
    ensures r.Some? <==> s <= store.Keys
    ensures r.Some? ==> r.value == OneHop(store, s)
  {
    if s <= store.Keys then Some(set m, w | m in s && w in store[m] :: w) else None
  }

  /** On a well-formed store a member's set is always found, and the expansion only grows. */
  lemma ExpandWellFormed(store: Store, k: string)
    requires WellFormed(store) && k in store
    ensures Expand(store, store[k]).Some?
    ensures store[k] <= Expand(store, store[k]).value
  {
    forall m | m in store[k] ensures m in OneHop(store, store[k]) {
      assert m in store && m in store[m];
    }
  }

  lemma Closed(store: Store, k: string)
    requires WellFormed(store) && k in store
    ensures store[k] <= store.Keys
  {
  }

  /** checkIfDirectRelation: the two words' own sets share two words. */
  function CheckIfDirectRelation(val1: string, val2: string, store: Store): (r: bool)
    requires val1 in store && val2 in store
    ensures r <==> SharesTwo(store[val1], store[val2])
  {
    CheckIfRelation(store[val1], store[val2])
  }

  /** checkIfInDirectRelation: the one-hop expansions share two words. */
  function CheckIfInDirectRelation(val1: string, val2: string, store: Store): (r: Result<bool>)
    requires val1 in store && val2 in store
    ensures r.Failure? <==> !(store[val1] <= store.Keys && store[val2] <= store.Keys)
    ensures r.Failure? ==> r.error == NullPointer
    ensures r.Success? ==>
      (r.value <==> SharesTwo(OneHop(store, store[val1]), OneHop(store, store[val2])))
  {
    match (Expand(store, store[val1]), Expand(store, store[val2]))
    case (Some(level1), Some(level2)) => Success(CheckIfRelation(level1, level2))
    case _ => Failure(NullPointer)
  }

  /**
   verifyConstraintsAndGet: the verdict for one query pair. Equal words are synonyms even
   when unknown; an unknown word is different; otherwise the direct check, and failing
   that the one-hop check, decides.
   */
  function VerifyConstraintsAndGet(testCase: seq<string>, store: Store): (r: Result<string>)
    requires |testCase| >= 2
    ensures r.Success? ==> r.value == SYNONYMS || r.value == DIFFERENT
    ensures r.Failure? ==> r.error == NullPointer
  {
    var val1 := ToLower(testCase[0]);
    var val2 := ToLower(testCase[1]);
    EqualsIgnoreCaseOfLowered(testCase[0], testCase[1]);
    if EqualsIgnoreCase(val1, val2) then Success(SYNONYMS)
    else if val1 in store && val2 in store then
      if CheckIfDirectRelation(val1, val2, store) then Success(SYNONYMS)
      else
        match CheckIfInDirectRelation(val1, val2, store)
        case Failure(e) => Failure(e)
        case Success(isRelation) => Success(if isRelation then SYNONYMS else DIFFERENT)
    else Success(DIFFERENT)
  }

  /**
   The order of the checks: equal lower-cased words are synonyms even when unknown; a word
   with no entry makes the pair different; for two distinct known words the verdict is
   synonyms exactly when the direct sets, or else the one-hop sets, share two words.
   */
  lemma VerdictCases(testCase: seq<string>, store: Store)
    requires |testCase| >= 2
    ensures var r := VerifyConstraintsAndGet(testCase, store);
      ToLower(testCase[0]) == ToLower(testCase[1]) ==> r == Success(SYNONYMS)
    ensures var r, val1, val2 := VerifyConstraintsAndGet(testCase, store), ToLower(testCase[0]), ToLower(testCase[1]);
      val1 != val2 && (val1 !in store || val2 !in store) ==> r == Success(DIFFERENT)
    ensures var r, val1, val2 := VerifyConstraintsAndGet(testCase, store), ToLower(testCase[0]), ToLower(testCase[1]);
      val1 != val2 && val1 in store && val2 in store && r.Success? ==>
        (r.value == SYNONYMS <==>
          SharesTwo(store[val1], store[val2])
          || SharesTwo(OneHop(store, store[val1]), OneHop(store, store[val2])))
  {
    EqualsIgnoreCaseOfLowered(testCase[0], testCase[1]);
  }

  /** On a well-formed store no query pair ever meets a missing entry. */
  lemma VerdictOnWellFormed(testCase: seq<string>, store: Store)
    requires |testCase| >= 2 && WellFormed(store)
    ensures VerifyConstraintsAndGet(testCase, store).Success?
  {
    var val1, val2 := ToLower(testCase[0]), ToLower(testCase[1]);
    if val1 in store && val2 in store {
      Closed(store, val1);
      Closed(store, val2);
      assert CheckIfInDirectRelation(val1, val2, store).Success?;
    }
  }

  /** The swapped query pair gets the same verdict. */
  lemma VerdictSymmetric(x: string, y: string, store: Store)
    ensures VerifyConstraintsAndGet([x, y], store) == VerifyConstraintsAndGet([y, x], store)
  {
    var val1, val2 := ToLower(x), ToLower(y);
    if val1 != val2 && val1 in store && val2 in store {
      assert store[val1] * store[val2] == store[val2] * store[val1];
      match (Expand(store, store[val1]), Expand(store, store[val2]))
      case (Some(level1), Some(level2)) =>
        assert level1 * level2 == level2 * level1;
      case _ =>
    }
  }

  /**
   With only the pair (a, b) folded in, querying (a, b) or (b, a), in any letter case,
   answers synonyms.
   */
  lemma SinglePairSynonyms(line: string, x: string, y: string)
    requires IsPairLine(line)
    requires var w := Split(line); ToLower(w[0]) != ToLower(w[1])
    requires var w := Split(line);
      (ToLower(x) == ToLower(w[0]) && ToLower(y) == ToLower(w[1]))
      || (ToLower(x) == ToLower(w[1]) && ToLower(y) == ToLower(w[0]))
    ensures BuildStore([line]).Success?
    ensures VerifyConstraintsAndGet([x, y], BuildStore([line]).value) == Success(SYNONYMS)
  {
    SinglePairStore(line);
    var w := Split(line);
    var a, b := ToLower(w[0]), ToLower(w[1]);
    var store := BuildStore([line]).value;
    assert a in store[a] * store[b] && b in store[a] * store[b];
    assert SharesTwo(store[ToLower(x)], store[ToLower(y)]);
  }

  /**
   Pairs (a, b) then (b, c): the newcomer c receives b's grown set, so a and c already
   share a and b and the direct check answers synonyms.
   */
  lemma ChainIsSynonyms(a: string, b: string, c: string)
    requires ToLower(a) == a && ToLower(c) == c
    requires a != b && b != c && a != c
    ensures var store := AddPair(AddPair(map[], a, b), b, c);
      store[a] == {a, b} && store[c] == {a, b, c}
      && CheckIfDirectRelation(a, c, store)
      && VerifyConstraintsAndGet([a, c], store) == Success(SYNONYMS)
  {
    var s1 := AddPair(map[], a, b);
    assert s1[a] == {a, b} && s1[b] == {a, b};
    var store := AddPair(s1, b, c);
    assert store[a] == {a, b} && store[c] == {a, b, c};
    assert a in store[a] && a in store[c] && b in store[a] && b in store[c];
  }

  lemma InHop(store: Store, s: set<string>, m: string, w: string)
    requires m in s && m in store && w in store[m]
    ensures w in OneHop(store, s)
  {
  }

  /** The store after (a, b), (c, d), (b, c): a and d keep their stale two-word sets. */
  lemma StaleStore(a: string, b: string, c: string, d: string)
    requires a != b && a != c && a != d && b != c && b != d && c != d
    ensures var store := AddPair(AddPair(AddPair(map[], a, b), c, d), b, c);
      && store.Keys == {a, b, c, d}
      && store[a] == {a, b} && store[d] == {c, d}
      && store[b] == {a, b, c, d} && store[c] == {a, b, c, d}
  {
    var s1 := AddPair(map[], a, b);
    assert s1[a] == {a, b} && s1[b] == {a, b};
    var s2 := AddPair(s1, c, d);
    assert s2[a] == {a, b} && s2[b] == {a, b} && s2[c] == {c, d} && s2[d] == {c, d};
  }

  /**
   Pairs (a, b), (c, d), (b, c): merging b and c leaves a with {a, b} and d with {c, d},
   stale sets sharing nothing; the one-hop check still reaches {a, b, c, d} from both, so
   (a, d) answers synonyms.
   */
  lemma StaleSetsStillSynonyms(a: string, b: string, c: string, d: string)
    requires ToLower(a) == a && ToLower(d) == d
    requires a != b && a != c && a != d && b != c && b != d && c != d
    ensures var store := AddPair(AddPair(AddPair(map[], a, b), c, d), b, c);
      && !CheckIfDirectRelation(a, d, store)
      && VerifyConstraintsAndGet([a, d], store) == Success(SYNONYMS)
  {
    StaleStore(a, b, c, d);
    var store := AddPair(AddPair(AddPair(map[], a, b), c, d), b, c);
    StaleVerdict(store, a, b, c, d);
  }

  lemma StaleVerdict(store: Store, a: string, b: string, c: string, d: string)
    requires ToLower(a) == a && ToLower(d) == d
    requires a != b && a != c && a != d && b != c && b != d && c != d
    requires store.Keys == {a, b, c, d}
    requires store[a] == {a, b} && store[d] == {c, d}
    requires store[b] == {a, b, c, d} && store[c] == {a, b, c, d}
    ensures !CheckIfDirectRelation(a, d, store)
    ensures VerifyConstraintsAndGet([a, d], store) == Success(SYNONYMS)
  {
    assert !SharesTwo(store[a], store[d]);
    InHop(store, store[a], a, a);
    InHop(store, store[a], a, b);
    InHop(store, store[d], c, a);
    InHop(store, store[d], c, b);
    assert SharesTwo(OneHop(store, store[a]), OneHop(store, store[d]));
    assert store[a] <= store.Keys && store[d] <= store.Keys;
    assert CheckIfInDirectRelation(a, d, store) == Success(true);
  }

  /** One query line: split at spaces, at least two tokens, then the verdict. */
  function EvaluateLine(line: string, store: Store): (r: Result<string>)
    ensures r.Success? ==> r.value == SYNONYMS || r.value == DIFFERENT
  {
    var testCase := Split(line);
    if |testCase| < 2 then Failure(NOT_A_PAIR) else VerifyConstraintsAndGet(testCase, store)
  }

  /** The evaluation of every query line, in input order. */
  function Evaluations(lines: seq<string>, store: Store): (r: seq<Result<string>>)
    ensures |r| == |lines|
    ensures forall i :: 0 <= i < |lines| ==> r[i] == EvaluateLine(lines[i], store)
  {
    seq(|lines|, i requires 0 <= i < |lines| => EvaluateLine(lines[i], store))
  }

  /**
   The values of the results, in order, as long as every result is a value; the first
   failure aborts with its error.
   */
  function Collect(results: seq<Result<string>>): (r: Result<seq<string>>)
    ensures r.Success? ==> |r.value| == |results|
  {
    if results == [] then Success([])
    else
      match results[0]
      case Failure(e) => Failure(e)
      case Success(v) =>
        match Collect(results[1..])
        case Failure(e) => Failure(e)
        case Success(rest) => Success([v] + rest)
  }

  /** The verdicts of all query lines, in order; the first line that fails aborts the run. */
  function RunAll(lines: seq<string>, store: Store): Result<seq<string>>
  {
    Collect(Evaluations(lines, store))
  }

  /** Collecting succeeds exactly when every result does, and then keeps every value in place. */
  lemma {:induction false} CollectValues(results: seq<Result<string>>)
    ensures Collect(results).Success? <==> forall i :: 0 <= i < |results| ==> results[i].Success?
    ensures Collect(results).Success? ==>
      forall i :: 0 <= i < |results| ==> results[i] == Success(Collect(results).value[i])
  {
    if results != [] {
      CollectValues(results[1..]);
      forall i | 0 < i < |results| ensures results[i] == results[1..][i - 1] { }
      if Collect(results).Success? {
        var v, rest := Collect(results).value, Collect(results[1..]).value;
        assert v == [v[0]] + rest;
        forall i | 0 < i < |results| ensures v[i] == rest[i - 1] { }
      }
    }
  }

  /** A failing collection fails with the error of its first failure. */
  lemma {:induction false} CollectFirstFailure(results: seq<Result<string>>)
    requires Collect(results).Failure?
    ensures
      (exists i :: 0 <= i < |results|
        && (forall j :: 0 <= j < i ==> results[j].Success?)
        && results[i] == Failure(Collect(results).error))
  {
    var e := Collect(results).error;
    if results[0].Failure? {
      assert results[0] == Failure(e);
    } else {
      var tail := results[1..];
      CollectFirstFailure(tail);
      var i :| 0 <= i < |tail|
        && (forall j :: 0 <= j < i ==> tail[j].Success?)
        && tail[i] == Failure(e);
      forall j | 0 <= j < i + 1 ensures results[j].Success? {
        if j > 0 {
          assert results[j] == tail[j - 1];
        }
      }
      assert results[i + 1] == tail[i];
    }
  }

  /**
   The run succeeds exactly when every query line does; then the i-th verdict is the verdict
   of line i, and each is "synonyms" or "different".
   */
  lemma RunAllVerdicts(lines: seq<string>, store: Store)
    ensures RunAll(lines, store).Success? <==>
      forall i :: 0 <= i < |lines| ==> EvaluateLine(lines[i], store).Success?
    ensures RunAll(lines, store).Success? ==> forall i :: 0 <= i < |lines| ==>
      EvaluateLine(lines[i], store) == Success(RunAll(lines, store).value[i])
      && (RunAll(lines, store).value[i] == SYNONYMS || RunAll(lines, store).value[i] == DIFFERENT)
  {
    CollectValues(Evaluations(lines, store));
  }

  /** A failing run fails with the error of its first failing query line. */
  lemma RunAllFirstFailure(lines: seq<string>, store: Store)
    requires RunAll(lines, store).Failure?
    ensures
      (exists i :: 0 <= i < |lines|
        && (forall j :: 0 <= j < i ==> EvaluateLine(lines[j], store).Success?)
        && EvaluateLine(lines[i], store) == Failure(RunAll(lines, store).error))
  {
    var results := Evaluations(lines, store);
    CollectFirstFailure(results);
    var i :| 0 <= i < |results|
      && (forall j :: 0 <= j < i ==> results[j].Success?)
      && results[i] == Failure(Collect(results).error);
    assert forall j :: 0 <= j < i ==> EvaluateLine(lines[j], store).Success?;
  }

  /** A run's values after the ones already collected. */
  function Prefixed(done: seq<string>, rest: Result<seq<string>>): Result<seq<string>>
  {
    match rest
    case Failure(e) => Failure(e)
    case Success(more) => Success(done + more)
  }

  lemma PrefixedEmpty(r: Result<seq<string>>)
    ensures Prefixed([], r) == r
  {
    if r.Success? {
      assert [] + r.value == r.value;
    }
  }

  lemma AppendAssoc(a: seq<string>, b: seq<string>, c: seq<string>)
    ensures a + (b + c) == a + b + c
  {
  }

  /** One more result collected: the collection either aborts with its error or gains its value. */
  lemma CollectAdvance(results: seq<Result<string>>, i: nat, done: seq<string>)
    requires i < |results|
    requires Collect(results) == Prefixed(done, Collect(results[i..]))
    ensures results[i].Failure? ==> Collect(results) == Failure(results[i].error)
    ensures results[i].Success? ==>
      Collect(results) == Prefixed(done + [results[i].value], Collect(results[i + 1..]))
  {
    var rest := results[i..];
    assert rest[0] == results[i] && rest[1..] == results[i + 1..];
    if results[i].Success? {
      var r := Collect(results[i + 1..]);
      if r.Success? {
        AppendAssoc(done, [results[i].value], r.value);
      }
    }
  }

  /** runTestCases: one verdict per query line, appended in order. */
  method RunTestCases(testCaseList: seq<string>, store: Store) returns (r: Result<seq<string>>)
    ensures r == RunAll(testCaseList, store)
  {
    ghost var results := Evaluations(testCaseList, store);
    var result: seq<string> := [];
    var i := 0;
    assert results[i..] == results;
    PrefixedEmpty(Collect(results));
    while i < |testCaseList|
      invariant 0 <= i <= |testCaseList|
      invariant Collect(results) == Prefixed(result, Collect(results[i..]))
    {
      CollectAdvance(results, i, result);
      var verdict := EvaluateLine(testCaseList[i], store);
      if verdict.Failure? {
        return Failure(verdict.error);
      }
      result := result + [verdict.value];
      i := i + 1;
    }
    assert results[i..] == [];
    assert result + [] == result;
    r := Success(result);
  }

  /**
   Within a phase, the query lines fail only for a line that is not a pair: the store the
   pair lines build never sends a query to a missing entry.
   */
  lemma PhaseQueriesNeedOnlyPairs(synonymLines: seq<string>, queryLines: seq<string>)
    requires BuildStore(synonymLines).Success?
    ensures var store := BuildStore(synonymLines).value;
      RunAll(queryLines, store).Success? <==> forall i :: 0 <= i < |queryLines| ==> IsPairLine(queryLines[i])
    ensures var store := BuildStore(synonymLines).value;
      RunAll(queryLines, store).Failure? ==> RunAll(queryLines, store).error == NOT_A_PAIR
  {
    var store := BuildStore(synonymLines).value;
    BuildStoreWellFormed(synonymLines);
    forall i | 0 <= i < |queryLines| && IsPairLine(queryLines[i])
      ensures EvaluateLine(queryLines[i], store).Success?
    {
      VerdictOnWellFormed(Split(queryLines[i]), store);
    }
    RunAllVerdicts(queryLines, store);
    if RunAll(queryLines, store).Failure? {
      RunAllFirstFailure(queryLines, store);
    }
  }

  /** A word that no pair line mentions is different from every other word. */
  lemma UnmentionedIsDifferent(synonymLines: seq<string>, x: string, y: string)
    requires BuildStore(synonymLines).Success?
    requires ToLower(x) != ToLower(y)
    requires forall i :: 0 <= i < |synonymLines| ==> ToLower(x) !in PairWords(synonymLines[i])
    ensures VerifyConstraintsAndGet([x, y], BuildStore(synonymLines).value) == Success(DIFFERENT)
  {
    BuildStoreKeys(synonymLines);
    NotMentioned(synonymLines, ToLower(x));
  }

  lemma {:induction false} NotMentioned(lines: seq<string>, w: string)
    requires forall i :: 0 <= i < |lines| ==> w !in PairWords(lines[i])
    ensures w !in Mentioned(lines)
  {
    if lines != [] {
      NotMentioned(lines[..|lines| - 1], w);
    }
  }
}
