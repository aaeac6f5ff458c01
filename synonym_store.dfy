/**
 Construction of the synonym store: lower-cased word |-> set of words, built by folding
 pair lines in order. The merge rule is deliberately not union-find: only the two words
 of the pair are updated, every other entry keeps the set it had.
 */
module SynonymStore {
  import opened JavaText

  type Store = map<string, set<string>>

  /** The error raised for a line that does not split into two tokens. */
  const NOT_A_PAIR: Error := IllegalArgument("Must be a Pair")

  /** A fresh set holding bag and val; bag itself is left as it was. */
  function MergeAndReturn(val: string, bag: set<string>): (r: set<string>)
    ensures val in r && bag <= r
    ensures forall w :: w in r ==> w in bag || w == val
  {
    bag + {val}
  }

  /** The set a word had before a pair was folded in, empty for a newcomer. */
  function Prior(store: Store, w: string): set<string>
  {
    if w in store then store[w] else {}
  }

  /**
   Every key belongs to its own set, and every member of a stored set is itself a key.
   The second half is what keeps the one-hop lookups of a query from meeting null.
   */
  ghost predicate WellFormed(store: Store)
  {
    && (forall k :: k in store ==> k in store[k])
    && (forall k, w :: k in store && w in store[k] ==> w in store)
  }

  /** One pair (val1, val2), already lower-cased, put into the store. */
  function AddPair(store: Store, val1: string, val2: string): (r: Store)
    ensures r.Keys == store.Keys + {val1, val2}
    ensures val2 in r[val1] && val1 in r[val2]
    ensures WellFormed(store) ==> {val1, val2} <= r[val1] && {val1, val2} <= r[val2]
    ensures forall k :: k in store && k != val1 && k != val2 ==> r[k] == store[k]
  {
    if val1 in store && val2 in store then
      var merge := store[val1] + store[val2];
      store[val1 := MergeAndReturn(val2, merge)][val2 := MergeAndReturn(val1, merge)]
    else if val1 in store && val2 !in store then
      var once := store[val1 := MergeAndReturn(val2, store[val1])];
      once[val2 := MergeAndReturn(val1, once[val1])]
    else if val2 in store && val1 !in store then
      var once := store[val2 := MergeAndReturn(val1, store[val2])];
      once[val1 := MergeAndReturn(val2, once[val2])]
    else
      var temp := {val1, val2};
      store[val1 := temp][val2 := temp]
  }

  /**
   On a well-formed store the four branches agree: both words end with the same set,
   the union of what each had before plus the two words themselves.
   */
  lemma AddPairJoins(store: Store, val1: string, val2: string)
    requires WellFormed(store)
    ensures AddPair(store, val1, val2)[val1] == Prior(store, val1) + Prior(store, val2) + {val1, val2}
    ensures AddPair(store, val1, val2)[val2] == Prior(store, val1) + Prior(store, val2) + {val1, val2}
  {
    var r := AddPair(store, val1, val2);
    if val1 in store {
      assert val1 in store[val1];
    }
    if val2 in store {
      assert val2 in store[val2];
    }
  }

  /** No stored set ever shrinks. */
  lemma AddPairGrows(store: Store, val1: string, val2: string)
    requires WellFormed(store)
    ensures forall k :: k in store ==> store[k] <= AddPair(store, val1, val2)[k]
  {
    AddPairJoins(store, val1, val2);
  }

  lemma AddPairKeepsWellFormed(store: Store, val1: string, val2: string)
    requires WellFormed(store)
    ensures WellFormed(AddPair(store, val1, val2))
  {
    var r := AddPair(store, val1, val2);
    AddPairJoins(store, val1, val2);
    forall k, w | k in r && w in r[k]
      ensures w in r
    {
      if k != val1 && k != val2 {
        assert w in store[k];
      }
    }
  }

  /** The two words of a pair line, lower-cased; absent when the line is not a pair. */
  function PairWords(line: string): set<string>
  {
    var tokens := Split(line);
    if |tokens| < 2 then {} else {ToLower(tokens[0]), ToLower(tokens[1])}
  }

  predicate IsPairLine(line: string)
  {
    |Split(line)| >= 2
  }

  /** Every word mentioned by a pair line of the list. */
  function Mentioned(lines: seq<string>): set<string>
  {
    if lines == [] then {} else Mentioned(lines[..|lines| - 1]) + PairWords(lines[|lines| - 1])
  }

  /** One line folded into the store built so far; a line that is not a pair aborts. */
  function FoldLine(prev: Result<Store>, line: string): (r: Result<Store>)
    ensures r.Success? <==> prev.Success? && IsPairLine(line)
    ensures r.Success? ==> r.value.Keys == prev.value.Keys + PairWords(line)
  {
    match prev
    case Failure(e) => Failure(e)
    case Success(store) =>
      var tokens := Split(line);
      if |tokens| < 2 then Failure(NOT_A_PAIR)
      else Success(AddPair(store, ToLower(tokens[0]), ToLower(tokens[1])))
  }

  /**
   The store the pair lines build, folding them in order from an empty store; the first
   line that is not a pair aborts construction.
   */
  function BuildStore(lines: seq<string>): (r: Result<Store>)
    ensures r.Failure? ==> r.error == NOT_A_PAIR
  {
    if lines == [] then Success(map[])
    else FoldLine(BuildStore(lines[..|lines| - 1]), lines[|lines| - 1])
  }

  /** Every store that construction builds is well formed. */
  lemma {:induction false} BuildStoreWellFormed(lines: seq<string>)
    requires BuildStore(lines).Success?
    ensures WellFormed(BuildStore(lines).value)
  {
    if lines != [] {
      var init, last := lines[..|lines| - 1], lines[|lines| - 1];
      BuildStoreWellFormed(init);
      var w := Split(last);
      AddPairKeepsWellFormed(BuildStore(init).value, ToLower(w[0]), ToLower(w[1]));
    }
  }

  /** Construction succeeds exactly when every line splits into at least two tokens. */
  lemma {:induction false} BuildStoreSucceeds(lines: seq<string>)
    ensures BuildStore(lines).Success? <==> forall i :: 0 <= i < |lines| ==> IsPairLine(lines[i])
  {
    if lines != [] {
      var init, last := lines[..|lines| - 1], lines[|lines| - 1];
      BuildStoreSucceeds(init);
      assert BuildStore(lines) == FoldLine(BuildStore(init), last);
      if BuildStore(lines).Success? {
        assert BuildStore(init).Success? && IsPairLine(last);
        forall i | 0 <= i < |lines|
          ensures IsPairLine(lines[i])
        {
          if i < |init| {
            assert lines[i] == init[i];
            assert IsPairLine(init[i]);
          } else {
            assert i == |lines| - 1;
          }
        }
      } else if BuildStore(init).Success? {
        assert !IsPairLine(last);
      } else {
        var j :| 0 <= j < |init| && !IsPairLine(init[j]);
        assert lines[j] == init[j];
      }
    }
  }

  /** A line that is not a pair makes the whole construction fail with "Must be a Pair". */
  lemma BuildStoreAborts(lines: seq<string>, i: nat)
    requires i < |lines| && !IsPairLine(lines[i])
    ensures BuildStore(lines) == Failure(NOT_A_PAIR)
  {
    BuildStoreSucceeds(lines);
  }

  /** The keys of a built store are exactly the lower-cased words of its pair lines. */
  lemma {:induction false} BuildStoreKeys(lines: seq<string>)
    requires BuildStore(lines).Success?
    ensures BuildStore(lines).value.Keys == Mentioned(lines)
  {
    if lines != [] {
      BuildStoreKeys(lines[..|lines| - 1]);
    }
  }

  /** The words of the first pair line end up mutual synonyms, and nothing else is stored. */
  lemma SinglePairStore(line: string)
    requires IsPairLine(line)
    ensures BuildStore([line]).Success?
    ensures var w := Split(line); var a, b := ToLower(w[0]), ToLower(w[1]);
      BuildStore([line]).value == map[a := {a, b}, b := {a, b}]
  {
    assert [line][..0] == [];
  }

  /** Construction over one more line is one more FoldLine step. */
  lemma BuildStoreStep(lines: seq<string>, i: nat)
    requires i < |lines|
    ensures BuildStore(lines[..i + 1]) == FoldLine(BuildStore(lines[..i]), lines[i])
  {
    var pre := lines[..i + 1];
    assert |pre| - 1 == i;
    assert pre[..i] == lines[..i];
  }

  /** A pair line folded into a store puts its two lower-cased words. */
  lemma FoldLinePair(store: Store, line: string)
    requires IsPairLine(line)
    ensures var w := Split(line);
      FoldLine(Success(store), line) == Success(AddPair(store, ToLower(w[0]), ToLower(w[1])))
  {
  }

  /** The puts of one loop iteration of constructSynonymStore, branch by branch. */
  method PutPair(store: Store, val1: string, val2: string) returns (r: Store)
    ensures r == AddPair(store, val1, val2)
  {
    r := store;
    if val1 in r && val2 in r {
      var merge := r[val1] + r[val2];
      r := r[val1 := MergeAndReturn(val2, merge)];
      r := r[val2 := MergeAndReturn(val1, merge)];
    } else if val1 in r && val2 !in r {
      r := r[val1 := MergeAndReturn(val2, r[val1])];
      r := r[val2 := MergeAndReturn(val1, r[val1])];
    } else if val2 in r && val1 !in r {
      r := r[val2 := MergeAndReturn(val1, r[val2])];
      r := r[val1 := MergeAndReturn(val2, r[val2])];
    } else {
      var temp := {val1, val2};
      r := r[val1 := temp];
      r := r[val2 := temp];
    }
  }

  /** constructSynonymStore: the pair lines folded into a fresh table, one put at a time. */
  method ConstructSynonymStore(synonymList: seq<string>) returns (r: Result<Store>)
    ensures r == BuildStore(synonymList)
    ensures r.Success? ==> WellFormed(r.value)
  {
    var synonymStore: Store := map[];
    var i := 0;
    assert synonymList[..i] == [];
    while i < |synonymList|
      invariant 0 <= i <= |synonymList|
      invariant BuildStore(synonymList[..i]) == Success(synonymStore)
    {
      var str := Split(synonymList[i]);
      if |str| < 2 {
        BuildStoreAborts(synonymList, i);
        return Failure(NOT_A_PAIR);
      }
      var val1 := ToLower(str[0]);
      var val2 := ToLower(str[1]);
      ghost var before := synonymStore;
      synonymStore := PutPair(synonymStore, val1, val2);
      BuildStoreStep(synonymList, i);
      FoldLinePair(before, synonymList[i]);
      i := i + 1;
    }
    assert synonymList[..i] == synonymList;
    BuildStoreWellFormed(synonymList);
    r := Success(synonymStore);
  }
}
