/**
 The frame splitter and the phase driver. The input is one list of lines: a phase count,
 then per phase a count-prefixed block of pair lines and a count-prefixed block of query
 lines. One shared cursor walks the list across all phases; each phase prints its verdicts
 once all of its queries are answered, so a failure keeps the output of earlier phases.
 */
module Phases {
  import opened JavaText
  import opened SynonymStore
  import opened Query

  /** The shared cursor (an AtomicInteger, used by a single thread). */
  class SharedIndex {
    var value: int

    constructor (initialValue: int)
      ensures value == initialValue
    {
      value := initialValue;
    }
  }

  /** The lines of one count-prefixed block and the cursor just past it. */
  datatype Block = Block(lines: seq<string>, next: int)

  /** The two blocks of one phase. */
  datatype Frame = Frame(synonyms: seq<string>, testCases: seq<string>)

  /** What a run prints, how it ends, and how many phases it completed. */
  datatype Run = Run(printed: seq<string>, failure: Option<Error>, completed: nat)

  /**
   The count line at index and the block of that many lines after it. The count must
   match "\\d+" and fit an int; a cursor or block that runs past the end is out of bounds.
   */
  function ReadBlock(fileContent: seq<string>, index: int): (r: Result<Block>)
    ensures r.Success? <==>
      && 0 <= index < |fileContent|
      && MatchesDigits(fileContent[index])
      && DigitsValue(fileContent[index]) <= INT_MAX
      && index + DigitsValue(fileContent[index]) + 1 <= |fileContent|
    ensures r.Success? ==>
      && r.value.next == index + DigitsValue(fileContent[index]) + 1
      && r.value.lines == fileContent[index + 1..r.value.next]
      && |r.value.lines| == DigitsValue(fileContent[index])
    ensures 0 <= index < |fileContent| && !MatchesDigits(fileContent[index]) ==>
      r == Failure(NumberFormat("Value at index=" + fileContent[index] + "must be an Integer"))
    ensures r.Failure? ==> r.error.NumberFormat? || r.error.IndexOutOfBounds?
  {
    if !(0 <= index < |fileContent|) then Failure(IndexOutOfBounds)
    else
      var nextStr := fileContent[index];
      if !MatchesDigits(nextStr) then
        Failure(NumberFormat("Value at index=" + nextStr + "must be an Integer"))
      else
        match ParseInt(nextStr)
        case Failure(e) => Failure(e)
        case Success(n) =>
          var offset := n + index;
          if offset + 1 > |fileContent| then Failure(IndexOutOfBounds)
          else Success(Block(fileContent[index + 1..offset + 1], offset + 1))
  }

  /**
   The synonym block, then the query block right after it; on success the cursor has
   moved past both count lines and both blocks.
   */
  function Segregate(fileContent: seq<string>, index: int): (r: Result<(Frame, int)>)
    ensures r.Success? ==>
      && ReadBlock(fileContent, index).Success?
      && var n1 := DigitsValue(fileContent[index]);
      && ReadBlock(fileContent, index + n1 + 1).Success?
      && var n2 := DigitsValue(fileContent[index + n1 + 1]);
      && r.value.0.synonyms == fileContent[index + 1..index + n1 + 1]
      && r.value.0.testCases == fileContent[index + n1 + 2..index + n1 + n2 + 2]
      && r.value.1 == index + n1 + n2 + 2
    ensures r.Failure? ==>
      ReadBlock(fileContent, index).Failure?
      || ReadBlock(fileContent, ReadBlock(fileContent, index).value.next).Failure?
  {
    match ReadBlock(fileContent, index)
    case Failure(e) => Failure(e)
    case Success(synonyms) =>
      match ReadBlock(fileContent, synonyms.next)
      case Failure(e) => Failure(e)
      case Success(testCases) => Success((Frame(synonyms.lines, testCases.lines), testCases.next))
  }

  /** One count-prefixed block read at the shared cursor, which then moves past it. */
  method ReadCountedBlock(fileContent: seq<string>, index: SharedIndex) returns (r: Result<seq<string>>)
    modifies index
    ensures var b := ReadBlock(fileContent, old(index.value));
      && (b.Success? ==> r == Success(b.value.lines) && index.value == b.value.next)
      && (b.Failure? ==> r == Failure(b.error) && index.value == old(index.value))
  {
    if !(0 <= index.value < |fileContent|) {
      return Failure(IndexOutOfBounds);
    }
    var nextStr := fileContent[index.value];
    if !MatchesDigits(nextStr) {
      return Failure(NumberFormat("Value at index=" + nextStr + "must be an Integer"));
    }
    var n := ParseInt(nextStr);
    if n.Failure? {
      return Failure(n.error);
    }
    var offset := n.value + index.value;
    if offset + 1 > |fileContent| {
      return Failure(IndexOutOfBounds);
    }
    r := Success(fileContent[index.value + 1..offset + 1]);
    index.value := offset + 1;
  }

  /**
   segregateSynonymsVsTestCases: both blocks of a phase read at the shared cursor. When
   the second count fails the cursor has already moved past the first block.
   */
  method SegregateSynonymsVsTestCases(fileContent: seq<string>, index: SharedIndex)
    returns (r: Result<Frame>)
    modifies index
    ensures var s := Segregate(fileContent, old(index.value));
      && (s.Success? ==> r == Success(s.value.0) && index.value == s.value.1)
      && (s.Failure? ==> r == Failure(s.error))
    ensures var first := ReadBlock(fileContent, old(index.value));
      && (first.Failure? ==> index.value == old(index.value))
      && (first.Success? && r.Failure? ==> index.value == first.value.next)
  {
    var rawSynonymList := ReadCountedBlock(fileContent, index);
    if rawSynonymList.Failure? {
      return Failure(rawSynonymList.error);
    }
    var rawTestCaseList := ReadCountedBlock(fileContent, index);
    if rawTestCaseList.Failure? {
      return Failure(rawTestCaseList.error);
    }
    r := Success(Frame(rawSynonymList.value, rawTestCaseList.value));
  }

  lemma DigitsNotBlank(s: string)
    requires MatchesDigits(s)
    ensures !IsBlank(s)
  {
    assert !IsWhitespace(s[0]);
  }

  /**
   extractTotalNumberOfTestCases: a null or blank first line is an illegal argument, a
   line that is not all digits (or does not fit an int) a number format error, and
   otherwise its value is the phase count.
   */
  function ExtractTotalNumberOfTestCases(firstLine: Option<string>): (r: Result<int>)
    ensures (firstLine.None? || IsBlank(firstLine.value)) ==>
      r == Failure(IllegalArgument("First line cannot be empty or null"))
    ensures firstLine.Some? && !IsBlank(firstLine.value) && !MatchesDigits(firstLine.value) ==>
      r == Failure(NumberFormat("First line must be an Integer"))
    ensures r.Success? ==>
      && firstLine.Some? && MatchesDigits(firstLine.value)
      && 0 <= r.value == DigitsValue(firstLine.value) <= INT_MAX
    ensures firstLine.Some? && MatchesDigits(firstLine.value) ==>
      && (r.Success? <==> DigitsValue(firstLine.value) <= INT_MAX)
      && (r.Failure? ==> r.error.NumberFormat?)
  {
    if firstLine.None? || IsBlank(firstLine.value) then
      Failure(IllegalArgument("First line cannot be empty or null"))
    else if !MatchesDigits(firstLine.value) then
      Failure(NumberFormat("First line must be an Integer"))
    else
      ParseInt(firstLine.value)
  }

  /** Any phase count an int can hold, written in decimal, reads back as itself. */
  lemma ExtractRoundTrip(n: nat)
    requires n <= INT_MAX
    ensures ExtractTotalNumberOfTestCases(Some(DecimalString(n))) == Success(n)
  {
    DigitsNotBlank(DecimalString(n));
    ParseIntDecimal(n);
  }

  /** One phase: split the frame, build the store, answer the queries. */
  function Phase(fileContent: seq<string>, index: int): Result<(seq<string>, int)>
  {
    match Segregate(fileContent, index)
    case Failure(e) => Failure(e)
    case Success((frame, next)) =>
      match BuildStore(frame.synonyms)
      case Failure(e) => Failure(e)
      case Success(store) =>
        match RunAll(frame.testCases, store)
        case Failure(e) => Failure(e)
        case Success(verdicts) => Success((verdicts, next))
  }

  /**
   A phase prints one verdict per query line and leaves the cursor past its two blocks;
   it can only fail on a bad count, a short input, or a line that is not a pair, never
   on a missing store entry.
   */
  lemma PhaseOutcome(fileContent: seq<string>, index: int)
    ensures var p := Phase(fileContent, index);
      p.Success? ==>
        && Segregate(fileContent, index).Success?
        && |p.value.0| == |Segregate(fileContent, index).value.0.testCases|
        && p.value.1 == Segregate(fileContent, index).value.1
    ensures Phase(fileContent, index).Failure? ==>
      Phase(fileContent, index).error != NullPointer
  {
    match Segregate(fileContent, index)
    case Failure(e) =>
    case Success((frame, next)) =>
      if BuildStore(frame.synonyms).Success? {
        PhaseQueriesNeedOnlyPairs(frame.synonyms, frame.testCases);
      }
  }

  /** process: one phase run at the shared cursor; its verdicts are what it prints. */
  method Process(fileContent: seq<string>, index: SharedIndex) returns (r: Result<seq<string>>)
    modifies index
    ensures var p := Phase(fileContent, old(index.value));
      && (p.Success? ==> r == Success(p.value.0) && index.value == p.value.1)
      && (p.Failure? ==> r == Failure(p.error))
  {
    var rawPartitionMap := SegregateSynonymsVsTestCases(fileContent, index);
    if rawPartitionMap.Failure? {
      return Failure(rawPartitionMap.error);
    }
    var synonymStore := ConstructSynonymStore(rawPartitionMap.value.synonyms);
    if synonymStore.Failure? {
      return Failure(synonymStore.error);
    }
    r := RunTestCases(rawPartitionMap.value.testCases, synonymStore.value);
  }

  /** The remaining phases run from the cursor, stopping at the first failure. */
  function RunPhases(fileContent: seq<string>, index: int, remaining: nat): (r: Run)
    ensures r.completed <= remaining
    ensures r.failure.None? <==> r.completed == remaining
    decreases remaining
  {
    if remaining == 0 then Run([], None, 0)
    else
      var phase := Phase(fileContent, index);
      if phase.Failure? then Run([], Some(phase.error), 0)
      else
        var rest := RunPhases(fileContent, phase.value.1, remaining - 1);
        Run(phase.value.0 + rest.printed, rest.failure, rest.completed + 1)
  }

  /** The whole run: the phase count from the first line, then that many phases from line 1. */
  function Program(fileContent: seq<string>): Run
  {
    if |fileContent| == 0 then Run([], Some(IndexOutOfBounds), 0)
    else
      match ExtractTotalNumberOfTestCases(Some(fileContent[0]))
      case Failure(e) => Run([], Some(e), 0)
      case Success(total) => RunPhases(fileContent, 1, total)
  }

  /** A run that ends without failure has run exactly as many phases as the first line says. */
  lemma ProgramRunsEveryPhase(fileContent: seq<string>)
    requires Program(fileContent).failure.None?
    ensures |fileContent| > 0
    ensures ExtractTotalNumberOfTestCases(Some(fileContent[0])).Success?
    ensures Program(fileContent).completed == ExtractTotalNumberOfTestCases(Some(fileContent[0])).value
  {
  }

  /** A first line that is blank, or not a number, stops the run before any phase. */
  lemma BadFirstLine(fileContent: seq<string>)
    requires |fileContent| > 0 && !MatchesDigits(fileContent[0])
    ensures Program(fileContent).printed == [] && Program(fileContent).completed == 0
    ensures IsBlank(fileContent[0]) ==>
      Program(fileContent).failure == Some(IllegalArgument("First line cannot be empty or null"))
    ensures !IsBlank(fileContent[0]) ==>
      Program(fileContent).failure == Some(NumberFormat("First line must be an Integer"))
  {
  }

  lemma RunPhasesStep(fileContent: seq<string>, index: int, remaining: nat)
    requires remaining > 0
    ensures var phase := Phase(fileContent, index);
      && (phase.Failure? ==> RunPhases(fileContent, index, remaining) == Run([], Some(phase.error), 0))
      && (phase.Success? ==>
        var rest := RunPhases(fileContent, phase.value.1, remaining - 1);
        && RunPhases(fileContent, index, remaining).printed == phase.value.0 + rest.printed
        && RunPhases(fileContent, index, remaining).failure == rest.failure)
  {
  }

  /**
   One pass of the forEach body of main: process at the shared cursor, described by what it
   leaves for the remaining phases.
   */
  method ProcessNext(fileContent: seq<string>, index: SharedIndex, ghost remaining: nat)
    returns (r: Result<seq<string>>)
    requires remaining > 0
    modifies index
    ensures var run := RunPhases(fileContent, old(index.value), remaining);
      && (r.Failure? ==> run == Run([], Some(r.error), 0))
      && (r.Success? ==>
        var rest := RunPhases(fileContent, index.value, remaining - 1);
        run.printed == r.value + rest.printed && run.failure == rest.failure)
  {
    ghost var before := index.value;
    RunPhasesStep(fileContent, before, remaining);
    r := Process(fileContent, index);
  }

  /**
   The forEach of main: totalPhases runs of process over the shared cursor, stopping at the
   first exception.
   */
  method RunPhasesLoop(fileContent: seq<string>, index: SharedIndex, totalPhases: nat)
    returns (printed: seq<string>, failure: Option<Error>)
    modifies index
    ensures printed == RunPhases(fileContent, old(index.value), totalPhases).printed
    ensures failure == RunPhases(fileContent, old(index.value), totalPhases).failure
  {
    printed := [];
    var i := 0;
    ghost var whole := RunPhases(fileContent, index.value, totalPhases);
    assert printed + whole.printed == whole.printed;
    while i < totalPhases
      invariant 0 <= i <= totalPhases
      invariant printed + RunPhases(fileContent, index.value, totalPhases - i).printed == whole.printed
      invariant RunPhases(fileContent, index.value, totalPhases - i).failure == whole.failure
    {
      var testCaseResults := ProcessNext(fileContent, index, totalPhases - i);
      if testCaseResults.Failure? {
        assert printed + [] == printed;
        return printed, Some(testCaseResults.error);
      }
      printed := printed + testCaseResults.value;
      i := i + 1;
    }
    assert printed + [] == printed;
    failure := None;
  }

  /** main: read the phase count, then run that many phases over one shared cursor from line 1. */
  method RunProgram(fileContent: seq<string>) returns (printed: seq<string>, failure: Option<Error>)
    ensures printed == Program(fileContent).printed
    ensures failure == Program(fileContent).failure
  {
    if |fileContent| == 0 {
      return [], Some(IndexOutOfBounds);
    }
    var totalPhases := ExtractTotalNumberOfTestCases(Some(fileContent[0]));
    if totalPhases.Failure? {
      return [], Some(totalPhases.error);
    }
    var index := new SharedIndex(1);
    printed, failure := RunPhasesLoop(fileContent, index, totalPhases.value);
  }

  /** The query "b a" against the store of the pair "a b" answers synonyms. */
  lemma OnePhaseVerdicts(a: string, b: string)
    requires a != [] && b != [] && ' ' !in a && ' ' !in b
    requires ToLower(a) != ToLower(b)
    ensures BuildStore([a + [' '] + b]).Success?
    ensures RunAll([b + [' '] + a], BuildStore([a + [' '] + b]).value) == Success([SYNONYMS])
  {
    SplitPair(a, b);
    SplitPair(b, a);
    SinglePairSynonyms(a + [' '] + b, b, a);
    var store := BuildStore([a + [' '] + b]).value;
    var queries := [b + [' '] + a];
    var results := Evaluations(queries, store);
    assert results[0] == Success(SYNONYMS);
    assert results[1..] == [];
    assert Collect(results[1..]) == Success([]);
    assert [SYNONYMS] + [] == [SYNONYMS];
    assert Collect(results) == Success([SYNONYMS]);
  }

  /**
   A one-phase input with the single pair "a b" and the single query "b a" prints exactly
   one line, "synonyms", and ends normally.
   */
  lemma OnePhaseRun(a: string, b: string)
    requires a != [] && b != [] && ' ' !in a && ' ' !in b
    requires ToLower(a) != ToLower(b)
    ensures Program(["1", "1", a + [' '] + b, "1", b + [' '] + a]) == Run([SYNONYMS], None, 1)
  {
    var fc := ["1", "1", a + [' '] + b, "1", b + [' '] + a];
    assert MatchesDigits("1") && DigitsValue("1") == 1;
    DigitsNotBlank("1");
    assert ExtractTotalNumberOfTestCases(Some(fc[0])) == Success(1);
    assert fc[1] == "1" && fc[2..3] == [a + [' '] + b];
    assert ReadBlock(fc, 1) == Success(Block([a + [' '] + b], 3));
    assert fc[3] == "1" && fc[4..5] == [b + [' '] + a];
    assert ReadBlock(fc, 3) == Success(Block([b + [' '] + a], 5));
    assert Segregate(fc, 1) == Success((Frame([a + [' '] + b], [b + [' '] + a]), 5));
    OnePhaseVerdicts(a, b);
    assert Phase(fc, 1) == Success(([SYNONYMS], 5));
    assert RunPhases(fc, 5, 0) == Run([], None, 0);
  }
}
