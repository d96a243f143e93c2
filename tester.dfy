/**
 * The unit-test harness of src/runtime.ts (`Test` and `TestRunner`).  A `Test`
 * runs a function on the inputs of its cases and classifies every case as
 * skipped, passed or failed with a reason code; the counters and the summary
 * arithmetic are computed from the classification.  The function under test
 * and the comparators are oracles: the function either returns or throws, a
 * comparator answers same, different, or throws.  `src/runtime/runtime.ts`
 * carries a copy of `Test.execute` that is the same code.
 */
module HyperTest {
  import opened Common

  /** What calling the function under test does: return a value or throw an error. */
  datatype Outcome<V, E> = Returned(value: V) | Threw(error: E)

  /** What a comparator (`equalFunc`, `errEqualFunc`) does: answer, or throw. */
  datatype Verdict<E> = Same | Differ | CompareThrew(error: E)

  /** Comparators are named; the oracle `compare` says what each one answers. */
  type ComparatorId = nat

  /** `Test.Error`: why a case failed, with its numeric code. */
  datatype Reason<E> =
    | ExpectedResultDoesNotMatch
    | ExpectedErrorButFuncSucceeded
    | ExpectedErrorDoesNotMatch
    | FuncFailedWithError
    | MissingExpectedOrExpectedErrField
    | EqualFuncFailed(err: E)
    | ErrEqualFuncFailed(err: E)
    | InputDoesNotMatchFuncSignature(provided: nat, expected: nat)
  {
    function Code(): (c: nat)
      ensures c <= 7
    {
      match this
      case ExpectedResultDoesNotMatch => 0
      case ExpectedErrorButFuncSucceeded => 1
      case ExpectedErrorDoesNotMatch => 2
      case FuncFailedWithError => 3
      case MissingExpectedOrExpectedErrField => 4
      case EqualFuncFailed(_) => 5
      case ErrEqualFuncFailed(_) => 6
      case InputDoesNotMatchFuncSignature(_, _) => 7
    }
  }

  /** One test case (`expected`, `expectedErr` are its `expect`, `expectErr`); an absent key is `None`. */
  datatype TestCase<V, E> = TestCase(
    input: seq<V>,
    expected: Option<V>,
    expectedErr: Option<E>,
    focus: Option<bool>,
    skip: bool,
    equalFunc: Option<ComparatorId>)

  datatype Status = SkippedStatus | PassedStatus | FailedStatus

  /** An entry of `testResults`: the status, the reason of a failure, and the result or error recorded. */
  datatype CaseResult<V, E> =
    | Skipped
    | Passed(outcome: Outcome<V, E>)
    | Failed(reason: Reason<E>, recorded: Option<Outcome<V, E>>)
  {
    function Status(): Status
    {
      match this
      case Skipped => SkippedStatus
      case Passed(_) => PassedStatus
      case Failed(_, _) => FailedStatus
    }
  }

  /** A case that has exactly one of `expect` and `expectErr`. */
  predicate WellFormed<V, E>(c: TestCase<V, E>)
  {
    c.expected.Some? != c.expectedErr.Some?
  }

  /**
   * The classification of one case by `execute`, with `eq` the comparator in
   * effect for it.
   */
  function Classify<V, E>(c: TestCase<V, E>, func: seq<V> -> Outcome<V, E>, arity: nat,
                          compare: (ComparatorId, V, V) -> Verdict<E>, eq: ComparatorId,
                          errEqual: (E, E) -> Verdict<E>): (r: CaseResult<V, E>)
    ensures r.Skipped? <==> c.skip
    ensures r.Failed? && r.reason.Code() == 4 <==> !c.skip && !WellFormed(c)
    ensures r.Failed? && r.reason.Code() == 7 <==> !c.skip && WellFormed(c) && |c.input| != arity
    ensures r.Passed? <==> (!c.skip && WellFormed(c) && |c.input| == arity &&
      match func(c.input)
      case Returned(v) => c.expected.Some? && compare(eq, c.expected.value, v) == Same
      case Threw(e) => c.expectedErr.Some? && errEqual(c.expectedErr.value, e) == Same)
    ensures r.Passed? ==> r.outcome == func(c.input)
  {
    if c.skip then Skipped
    else if !WellFormed(c) then Failed(MissingExpectedOrExpectedErrField, None)
    else if |c.input| != arity then Failed(InputDoesNotMatchFuncSignature(|c.input|, arity), None)
    else match func(c.input)
      case Returned(v) =>
        if c.expectedErr.Some? then Failed(ExpectedErrorButFuncSucceeded, Some(Returned(v)))
        else (match compare(eq, c.expected.value, v)
          case Differ => Failed(ExpectedResultDoesNotMatch, Some(Returned(v)))
          case Same => Passed(Returned(v))
          case CompareThrew(err) => Failed(EqualFuncFailed(err), Some(Threw(err))))
      case Threw(e) =>
        if c.expected.Some? then Failed(FuncFailedWithError, Some(Threw(e)))
        else (match errEqual(c.expectedErr.value, e)
          case Differ => Failed(ExpectedErrorDoesNotMatch, Some(Threw(e)))
          case Same => Passed(Threw(e))
          case CompareThrew(err) => Failed(ErrEqualFuncFailed(err), Some(Threw(e))))
  }

  /**
   * The comparator in effect after the first n cases: a case that is not
   * skipped and names a comparator replaces it for itself and all later cases.
   */
  function Carried<V, E>(cases: seq<TestCase<V, E>>, n: nat, eq0: ComparatorId): ComparatorId
    requires n <= |cases|
  {
    if n == 0 then eq0
    else
      var c := cases[n - 1];
      if !c.skip && c.equalFunc.Some? then c.equalFunc.value else Carried(cases, n - 1, eq0)
  }

  /** A case's own comparator is the one it is judged with. */
  lemma OwnComparatorWins<V, E>(cases: seq<TestCase<V, E>>, k: nat, eq0: ComparatorId)
    requires k < |cases| && !cases[k].skip && cases[k].equalFunc.Some?
    ensures Carried(cases, k + 1, eq0) == cases[k].equalFunc.value
  {
  }

  /** When no case names a comparator, every case is judged with the test's own. */
  lemma {:induction false} DefaultComparator<V, E>(cases: seq<TestCase<V, E>>, n: nat, eq0: ComparatorId)
    requires n <= |cases|
    requires forall k | 0 <= k < |cases| :: cases[k].equalFunc.None?
    ensures Carried(cases, n, eq0) == eq0
  {
    if n > 0 {
      DefaultComparator(cases, n - 1, eq0);
    }
  }

  // ---------------------------------------------------------------------------
  // Focus
  // ---------------------------------------------------------------------------

  predicate AnyFocusKey<V, E>(cases: seq<TestCase<V, E>>)
  {
    exists k | 0 <= k < |cases| :: cases[k].focus.Some?
  }

  /** `cases.filter(c => c.focus == true)`. */
  function FocusOnly<V(==), E(==)>(cases: seq<TestCase<V, E>>): (r: seq<TestCase<V, E>>)
    ensures |r| <= |cases|
    ensures forall j | 0 <= j < |r| :: r[j].focus == Some(true)
    ensures |cases| == 1 ==> r == if cases[0].focus == Some(true) then cases else []
  {
    if cases == [] then []
    else
      var rest := FocusOnly(cases[1..]);
      if cases[0].focus == Some(true) then [cases[0]] + rest else rest
  }

  /** The filter keeps cases of the array only, and every focused one. */
  lemma {:induction false} FocusOnlyMembers<V, E>(cases: seq<TestCase<V, E>>)
    ensures forall j | 0 <= j < |FocusOnly(cases)| :: FocusOnly(cases)[j] in cases
    ensures forall k | 0 <= k < |cases| && cases[k].focus == Some(true) :: cases[k] in FocusOnly(cases)
  {
    if cases != [] {
      FocusOnlyMembers(cases[1..]);
      assert forall k | 1 <= k < |cases| :: cases[k] == cases[1..][k - 1];
    }
  }

  /**
   * Filtering distributes over concatenation: with the one-case clause of
   * `FocusOnly`, every focused case is kept exactly once and in its order.
   */
  lemma {:induction false} FocusOnlyConcat<V, E>(a: seq<TestCase<V, E>>, b: seq<TestCase<V, E>>)
    ensures FocusOnly(a + b) == FocusOnly(a) + FocusOnly(b)
  {
    if a == [] {
      assert a + b == b;
    } else {
      var c := a + b;
      assert c[0] == a[0] && c[1..] == a[1..] + b;
      FocusOnlyConcat(a[1..], b);
      var head := if a[0].focus == Some(true) then [a[0]] else [];
      assert FocusOnly(c) == head + FocusOnly(c[1..]);
      assert FocusOnly(a) == head + FocusOnly(a[1..]);
      Regroup(head, FocusOnly(a[1..]), FocusOnly(b));
    }
  }

  lemma Regroup<T>(a: seq<T>, b: seq<T>, c: seq<T>)
    ensures a + (b + c) == a + b + c
  {
  }

  /** The cases `execute` keeps: the focused ones if any case has a `focus` key, all of them otherwise. */
  function Kept<V(==), E(==)>(cases: seq<TestCase<V, E>>): seq<TestCase<V, E>>
  {
    if AnyFocusKey(cases) then FocusOnly(cases) else cases
  }

  // ---------------------------------------------------------------------------
  // Counters and statistics
  // ---------------------------------------------------------------------------

  /** The indices of the results with a given status. */
  function KeysWith<V, E>(results: map<nat, CaseResult<V, E>>, s: Status): set<nat>
  {
    set k | k in results && results[k].Status() == s
  }

  /** The numbers `dumpStats` prints: total, failed, skipped, and passed as total − (failed + skipped). */
  function Stats<V, E>(results: map<nat, CaseResult<V, E>>): (int, int, int, int)
  {
    var total := |results|;
    var failed := |KeysWith(results, FailedStatus)|;
    var skipped := |KeysWith(results, SkippedStatus)|;
    (total, failed, skipped, total - (failed + skipped))
  }

  /** Every result is exactly one of skipped, passed or failed, so the computed number passed counts the passed ones. */
  lemma StatsPartition<V, E>(results: map<nat, CaseResult<V, E>>)
    ensures var (total, failed, skipped, passed) := Stats(results);
      passed == |KeysWith(results, PassedStatus)| && 0 <= passed <= total &&
      failed + skipped + passed == total
  {
    KeysPartition(results);
    PartitionSize(results.Keys, KeysWith(results, FailedStatus), KeysWith(results, SkippedStatus), KeysWith(results, PassedStatus));
  }

  /** The keys with each status split the keys of the results. */
  lemma KeysPartition<V, E>(results: map<nat, CaseResult<V, E>>)
    ensures var f, s, p := KeysWith(results, FailedStatus), KeysWith(results, SkippedStatus), KeysWith(results, PassedStatus);
      results.Keys == f + s + p && f * s == {} && (f + s) * p == {}
  {
  }

  /** The size of a set split into three disjoint parts is the sum of theirs. */
  lemma PartitionSize<T>(all: set<T>, f: set<T>, s: set<T>, p: set<T>)
    requires all == f + s + p && f * s == {} && (f + s) * p == {}
    ensures |all| == |f| + |s| + |p|
  {
    assert |f + s| == |f| + |s|;
  }

  /** The set of the first n indices. */
  function Indices(n: nat): (r: set<nat>)
    ensures forall k: nat :: k in r <==> k < n
  {
    if n == 0 then {} else Indices(n - 1) + {n - 1}
  }

  /** There are n indices below n. */
  lemma {:induction false} IndicesSize(n: nat)
    ensures |Indices(n)| == n
  {
    if n > 0 {
      var r := Indices(n - 1);
      IndicesSize(n - 1);
      assert n - 1 !in r;
      assert Indices(n) == r + {n - 1};
    }
  }

  /** A fresh test that executed its cases has one result per kept case, so its total is their number. */
  lemma FreshTotal<V, E>(results: map<nat, CaseResult<V, E>>, n: nat)
    requires results.Keys == Indices(n)
    ensures Stats(results).0 == n
  {
    IndicesSize(n);
  }

  /** Counts the results with a given status, one entry of the map at a time. */
  method CountWith<V, E>(results: map<nat, CaseResult<V, E>>, s: Status) returns (count: nat)
    ensures count == |KeysWith(results, s)|
  {
    count := 0;
    var rest := results.Keys;
    ghost var seen: set<nat> := {};
    while rest != {}
      invariant rest <= results.Keys
      invariant seen == KeysWith(results, s) - rest
      invariant count == |seen|
      decreases rest
    {
      var k :| k in rest;
      CountStep(results, s, rest, k);
      if results[k].Status() == s {
        seen := seen + {k};
        count := count + 1;
      }
      rest := rest - {k};
    }
  }

  /** Taking one key out of the unvisited ones adds it to the counted keys exactly when it has the status. */
  lemma CountStep<V, E>(results: map<nat, CaseResult<V, E>>, s: Status, rest: set<nat>, k: nat)
    requires rest <= results.Keys && k in rest
    ensures k !in KeysWith(results, s) - rest
    ensures KeysWith(results, s) - (rest - {k}) ==
      (KeysWith(results, s) - rest) + (if results[k].Status() == s then {k} else {})
  {
  }

  // ---------------------------------------------------------------------------
  // Test
  // ---------------------------------------------------------------------------

  /** `Test.data` apart from the cases: the function under test, its arity and the comparators. */
  datatype TestData<!V, !E> = TestData(
    func: seq<V> -> Outcome<V, E>,
    /** `func.length`, the number of parameters the function declares. */
    arity: nat,
    equalFunc: ComparatorId,
    compare: (ComparatorId, V, V) -> Verdict<E>,
    errEqualFunc: (E, E) -> Verdict<E>)

  /** The result `execute` records for the k-th kept case. */
  function Judged<V, E>(d: TestData<V, E>, cases: seq<TestCase<V, E>>, k: nat): CaseResult<V, E>
    requires k < |cases|
  {
    Classify(cases[k], d.func, d.arity, d.compare, Carried(cases, k + 1, d.equalFunc), d.errEqualFunc)
  }

  /**
   * The loop of `execute` over the kept cases: one result per case under its
   * index, with the comparator carried from case to case.
   */
  method JudgeAll<V, E>(d: TestData<V, E>, cases: seq<TestCase<V, E>>, results: map<nat, CaseResult<V, E>>)
    returns (out: map<nat, CaseResult<V, E>>)
    ensures out.Keys == results.Keys + Indices(|cases|)
    ensures forall k | 0 <= k < |cases| :: out[k] == Judged(d, cases, k)
    ensures forall k | k in results && k >= |cases| :: out[k] == results[k]
  {
    out := results;
    ghost var want := JudgedAll(d, cases);
    var equalFunc := d.equalFunc;
    var k := 0;
    while k < |cases|
      invariant 0 <= k <= |cases|
      invariant equalFunc == Carried(cases, k, d.equalFunc)
      invariant out.Keys == results.Keys + Indices(k)
      invariant forall j | 0 <= j < k :: out[j] == want[j]
      invariant forall j | j in results && j >= k :: out[j] == results[j]
    {
      var v;
      v, equalFunc := JudgeNext(d, cases, k, equalFunc);
      RecordStep(results, out, want, k, v);
      out := out[k := v];
      k := k + 1;
    }
  }

  /** The body of the loop of `execute`: the k-th case's result, and the comparator carried past it. */
  method JudgeNext<V, E>(d: TestData<V, E>, cases: seq<TestCase<V, E>>, k: nat, equalFunc: ComparatorId)
    returns (v: CaseResult<V, E>, carried: ComparatorId)
    requires k < |cases| && equalFunc == Carried(cases, k, d.equalFunc)
    ensures v == Judged(d, cases, k) && carried == Carried(cases, k + 1, d.equalFunc)
  {
    var c := cases[k];
    carried := equalFunc;
    if c.skip {
      v := Skipped;
    } else {
      // Get equalFunc from the case if available
      if c.equalFunc.Some? {
        carried := c.equalFunc.value;
      }
      v := Classify(c, d.func, d.arity, d.compare, carried, d.errEqualFunc);
    }
  }

  /** The results `execute` records for all the kept cases, in order. */
  ghost function JudgedAll<V, E>(d: TestData<V, E>, cases: seq<TestCase<V, E>>): (r: seq<CaseResult<V, E>>)
    ensures |r| == |cases| && forall j | 0 <= j < |cases| :: r[j] == Judged(d, cases, j)
  {
    seq(|cases|, j requires 0 <= j < |cases| => Judged(d, cases, j))
  }

  /** Recording the k-th wanted value under k keeps the loop's picture of the map, one index further. */
  lemma RecordStep<R>(results: map<nat, R>, out: map<nat, R>, want: seq<R>, k: nat, v: R)
    requires k < |want| && v == want[k]
    requires out.Keys == results.Keys + Indices(k)
    requires forall j | 0 <= j < k :: out[j] == want[j]
    requires forall j | j in results && j >= k :: out[j] == results[j]
    ensures out[k := v].Keys == results.Keys + Indices(k + 1)
    ensures forall j | 0 <= j < k + 1 :: out[k := v][j] == want[j]
    ensures forall j | j in results && j >= k + 1 :: out[k := v][j] == results[j]
  {
    assert Indices(k + 1) == Indices(k) + {k};
  }

  class Test<V(==), E(==)> {
    var cases: seq<TestCase<V, E>>
    const data: TestData<V, E>
    var testResults: map<nat, CaseResult<V, E>>

    constructor(cases: seq<TestCase<V, E>>, data: TestData<V, E>)
      ensures this.cases == cases && this.data == data && testResults == map[]
    {
      this.cases := cases;
      this.data := data;
      testResults := map[];
    }

    /**
     * `execute`: keeps the focused cases if any case has a `focus` key, then
     * records one result per kept case under its index (results of a previous
     * run at other indices stay).
     */
    method Execute()
      modifies this
      ensures cases == Kept(old(cases))
      ensures testResults.Keys == old(testResults).Keys + Indices(|cases|)
      ensures forall k | 0 <= k < |cases| :: testResults[k] == Judged(data, cases, k)
      ensures forall k | k in old(testResults) && k >= |cases| :: testResults[k] == old(testResults)[k]
    {
      if |cases| == 0 {
        assert testResults.Keys == old(testResults).Keys + Indices(0);
        return;
      }
      if exists k | 0 <= k < |cases| :: cases[k].focus.Some? {
        cases := FocusOnly(cases);
      }
      testResults := JudgeAll(data, cases, testResults);
    }

    /** `countFailedCases`. */
    method CountFailedCases() returns (count: nat)
      ensures count == |KeysWith(testResults, FailedStatus)|
    {
      count := CountWith(testResults, FailedStatus);
    }

    /** `countSkippedCases`. */
    method CountSkippedCases() returns (count: nat)
      ensures count == |KeysWith(testResults, SkippedStatus)|
    {
      count := CountWith(testResults, SkippedStatus);
    }
  }

  // ---------------------------------------------------------------------------
  // TestRunner
  // ---------------------------------------------------------------------------

  /** `map.set(t, …)` / `set.add(t)` on the insertion order: a new key goes last, a known one stays. */
  function Enroll<T(==)>(order: seq<T>, t: T): seq<T>
  {
    if t in order then order else order + [t]
  }

  /** The insertion order after adding every element of `ts`, one after the other. */
  function EnrollAll<T(==)>(order: seq<T>, ts: seq<T>): seq<T>
    decreases |ts|
  {
    if ts == [] then order else EnrollAll(Enroll(order, ts[0]), ts[1..])
  }

  predicate Distinct<T(==)>(s: seq<T>)
  {
    forall a, b | 0 <= a < b < |s| :: s[a] != s[b]
  }

  /**
   * Adding keys keeps the keys already there, in their order, in front; the
   * keys afterwards are the old ones and the added ones, each once.
   */
  lemma {:induction false} EnrollAllOrder<T>(order: seq<T>, ts: seq<T>)
    requires Distinct(order)
    ensures var r := EnrollAll(order, ts);
      Distinct(r) && |order| <= |r| && r[..|order|] == order &&
      (forall t :: t in r <==> t in order || t in ts)
    decreases |ts|
  {
    if ts != [] {
      var next := Enroll(order, ts[0]);
      assert Distinct(next);
      EnrollAllOrder(next, ts[1..]);
      var r := EnrollAll(order, ts);
      assert r[..|next|] == next;
      assert r[..|order|] == next[..|order|];
      assert next[..|order|] == order;
      forall t
        ensures t in r <==> t in order || t in ts
      {
        assert t in ts <==> t == ts[0] || t in ts[1..];
      }
    }
  }

  /** The tests a run of `src/runtime.ts` executes in registration order: those before the first skipped one. */
  function UntilSkipped<T(==)>(order: seq<T>, skip: map<T, bool>): (r: seq<T>)
    requires forall t | t in order :: t in skip
    ensures |r| <= |order| && r == order[..|r|]
    ensures forall t | t in r :: !skip[t]
    ensures |r| < |order| ==> skip[order[|r|]]
  {
    if order == [] then []
    else if skip[order[0]] then []
    else
      var rest := UntilSkipped(order[1..], skip);
      assert order == [order[0]] + order[1..];
      [order[0]] + rest
  }

  /**
   * The focused tests a run executes: those before the first `undefined`
   * entry, where `undefined.execute()` throws a TypeError.
   */
  function UntilUndefined<T>(focus: seq<Option<T>>): (r: seq<T>)
    ensures |r| <= |focus| && forall k | 0 <= k < |r| :: focus[k] == Some(r[k])
    ensures |r| < |focus| ==> focus[|r|] == None
  {
    if focus == [] || focus[0].None? then []
    else [focus[0].value] + UntilUndefined(focus[1..])
  }

  /** The run over the focus set stops at the first `undefined` entry, or goes through. */
  lemma UntilUndefinedAt<T>(focus: seq<Option<T>>, executed: seq<T>)
    requires |executed| <= |focus| && forall k | 0 <= k < |executed| :: focus[k] == Some(executed[k])
    requires |executed| < |focus| ==> focus[|executed|] == None
    ensures UntilUndefined(focus) == executed
    ensures None in focus <==> |executed| < |focus|
  {
    var r := UntilUndefined(focus);
    assert |r| == |executed|;
    forall k | 0 <= k < |r| ensures r[k] == executed[k] {
      assert focus[k] == Some(r[k]);
    }
    if |executed| == |focus| {
      assert forall k | 0 <= k < |focus| :: focus[k] != None;
    }
  }

  /**
   * `for (const test of this.testsOnFocus) test.execute()`: the tests executed,
   * and whether an `undefined` entry made the loop throw.
   */
  method RunFocused<T>(focus: seq<Option<T>>) returns (executed: seq<T>, crashed: bool)
    ensures executed == UntilUndefined(focus)
    ensures crashed <==> None in focus
  {
    executed := [];
    var j := 0;
    while j < |focus|
      invariant 0 <= j <= |focus| && |executed| == j
      invariant forall k | 0 <= k < j :: focus[k] == Some(executed[k])
    {
      if focus[j].None? {
        UntilUndefinedAt(focus, executed);
        return executed, true;
      }
      executed := executed + [focus[j].value];
      j := j + 1;
    }
    UntilUndefinedAt(focus, executed);
    crashed := false;
  }

  /** `map.set(t, v)` for every element of `ts`, one after the other. */
  function SetAll<T>(m: map<T, bool>, ts: seq<T>, v: bool): (r: map<T, bool>)
    ensures forall t | t in ts :: t in r && r[t] == v
    ensures forall t | t in m && t !in ts :: t in r && r[t] == m[t]
    ensures forall t | t in r :: t in m || t in ts
    decreases |ts|
  {
    if ts == [] then m
    else
      var r := SetAll(m[ts[0] := v], ts[1..], v);
      assert forall t | t in ts :: t == ts[0] || t in ts[1..];
      r
  }

  /** Every element wrapped as a present value. */
  function Somes<T>(s: seq<T>): (r: seq<Option<T>>)
    ensures |r| == |s| && forall j | 0 <= j < |s| :: r[j] == Some(s[j])
  {
    if s == [] then [] else [Some(s[0])] + Somes(s[1..])
  }

  /** The insertion order lists exactly the keys of the map, each once. */
  predicate Tracks<T(==)>(order: seq<T>, m: map<T, bool>)
  {
    Distinct(order) && (forall t | t in m :: t in order) && (forall t | t in order :: t in m)
  }

  /** Adding an element to an ordered set keeps its elements distinct. */
  lemma EnrollDistinct<T>(s: seq<T>, x: T)
    requires Distinct(s)
    ensures Distinct(Enroll(s, x))
  {
  }

  /** Setting one key keeps the order and the map in step. */
  lemma EnrollTracks<T>(order: seq<T>, m: map<T, bool>, t: T, v: bool)
    requires Tracks(order, m)
    ensures Tracks(Enroll(order, t), m[t := v])
  {
  }

  /** One step of a registration loop: the remaining elements start with the current one. */
  lemma RegisterStep<T>(order: seq<T>, m: map<T, bool>, focus: seq<Option<T>>, ts: seq<T>, j: nat, v: bool)
    requires j < |ts|
    ensures EnrollAll(order, ts[j..]) == EnrollAll(Enroll(order, ts[j]), ts[j + 1..])
    ensures SetAll(m, ts[j..], v) == SetAll(m[ts[j] := v], ts[j + 1..], v)
    ensures EnrollAll(focus, Somes(ts[j..])) == EnrollAll(Enroll(focus, Some(ts[j])), Somes(ts[j + 1..]))
  {
    assert ts[j..][0] == ts[j] && ts[j..][1..] == ts[j + 1..];
    assert Somes(ts[j..])[1..] == Somes(ts[j + 1..]);
  }

  /** The `TestRunner` of src/runtime.ts: a map from test to "skip?" and a set of focused tests. */
  class TestRunner<T(==)> {
    /** The keys of `tests` in insertion order. */
    var order: seq<T>
    /** `tests`: whether each registered test is skipped. */
    var skip: map<T, bool>
    /** `testsOnFocus` in insertion order; `None` is the `undefined` that `focusOnLast` adds when there is no test. */
    var focus: seq<Option<T>>

    ghost predicate Valid()
      reads this
    {
      Tracks(order, skip) && Distinct(focus)
    }

    constructor()
      ensures Valid() && order == [] && skip == map[] && focus == []
    {
      order, skip, focus := [], map[], [];
    }

    /** Registers tests with the given skip flag, in order (`tests.set(test, flag)` for each). */
    method Register(ts: seq<T>, flag: bool)
      requires Valid()
      modifies this
      ensures Valid() && focus == old(focus)
      ensures order == EnrollAll(old(order), ts) && skip == SetAll(old(skip), ts, flag)
    {
      var o, m, j := order, skip, 0;
      while j < |ts|
        invariant 0 <= j <= |ts|
        invariant Tracks(o, m) && Distinct(focus) && focus == old(focus)
        invariant EnrollAll(o, ts[j..]) == EnrollAll(old(order), ts)
        invariant SetAll(m, ts[j..], flag) == SetAll(old(skip), ts, flag)
      {
        RegisterStep(o, m, focus, ts, j, flag);
        EnrollTracks(o, m, ts[j], flag);
        o := Enroll(o, ts[j]);
        m := m[ts[j] := flag];
        j := j + 1;
      }
      assert ts[j..] == [];
      assert EnrollAll(o, ts[j..]) == o && SetAll(m, ts[j..], flag) == m;
      order, skip := o, m;
    }

    /** `add(...tests)`: registers the tests as not skipped. */
    method Add(ts: seq<T>)
      requires Valid()
      modifies this
      ensures Valid() && focus == old(focus)
      ensures order == EnrollAll(old(order), ts) && skip == SetAll(old(skip), ts, false)
    {
      Register(ts, false);
    }

    /** `skip(...tests)`: registers the tests as skipped. */
    method Skip(ts: seq<T>)
      requires Valid()
      modifies this
      ensures Valid() && focus == old(focus)
      ensures order == EnrollAll(old(order), ts) && skip == SetAll(old(skip), ts, true)
    {
      Register(ts, true);
    }

    /** `focus(...tests)`: registers the tests as not skipped and adds them to the focus set. */
    method Focus(ts: seq<T>)
      requires Valid()
      modifies this
      ensures Valid()
      ensures order == EnrollAll(old(order), ts) && skip == SetAll(old(skip), ts, false)
      ensures focus == EnrollAll(old(focus), Somes(ts))
    {
      var o, m, f, j := order, skip, focus, 0;
      while j < |ts|
        invariant 0 <= j <= |ts|
        invariant Tracks(o, m) && Distinct(f)
        invariant EnrollAll(o, ts[j..]) == EnrollAll(old(order), ts)
        invariant SetAll(m, ts[j..], false) == SetAll(old(skip), ts, false)
        invariant EnrollAll(f, Somes(ts[j..])) == EnrollAll(old(focus), Somes(ts))
      {
        RegisterStep(o, m, f, ts, j, false);
        EnrollTracks(o, m, ts[j], false);
        EnrollDistinct(f, Some(ts[j]));
        o := Enroll(o, ts[j]);
        m := m[ts[j] := false];
        f := Enroll(f, Some(ts[j]));
        j := j + 1;
      }
      assert ts[j..] == [] && Somes(ts[j..]) == [];
      assert EnrollAll(o, ts[j..]) == o && EnrollAll(f, Somes(ts[j..])) == f && SetAll(m, ts[j..], false) == m;
      order, skip, focus := o, m, f;
    }

    /** `focusOnLast()`: the focus set becomes the last registered test alone (`undefined` when there is none). */
    method FocusOnLast()
      requires Valid()
      modifies this
      ensures Valid() && order == old(order) && skip == old(skip)
      ensures |focus| == 1
      ensures focus[0] == if order == [] then None else Some(order[|order| - 1])
    {
      focus := [if order == [] then None else Some(order[|order| - 1])];
    }

    /**
     * `run()`: the tests whose `execute` it calls, in order, whether it gets
     * to print, and whether it throws.  Nothing without tests; the focus set
     * when it is not empty, throwing a TypeError at its first `undefined`
     * entry; otherwise the registered tests up to the first skipped one,
     * where it returns without printing.
     */
    method Run() returns (executed: seq<T>, printed: bool, crashed: bool)
      requires Valid()
      ensures order == [] ==> executed == [] && !printed && !crashed
      ensures order != [] && focus != [] ==>
        executed == UntilUndefined(focus) && (crashed <==> None in focus) && (printed <==> !crashed)
      ensures order != [] && focus == [] ==>
        (executed == UntilSkipped(order, skip) && !crashed &&
        (printed <==> forall t | t in order :: !skip[t]))
    {
      if order == [] {
        return [], false, false;
      }
      if focus != [] {
        executed, crashed := RunFocused(focus);
        return executed, !crashed, crashed;
      }
      crashed := false;
      executed := [];
      var j := 0;
      while j < |order|
        invariant 0 <= j <= |order|
        invariant forall t | t in order[..j] :: !skip[t]
        invariant executed == order[..j]
      {
        if skip[order[j]] {
          UntilSkippedAt(order, skip, j);
          return executed, false, false;
        }
        assert order[..j + 1] == order[..j] + [order[j]];
        executed := executed + [order[j]];
        j := j + 1;
      }
      assert order[..j] == order;
      UntilSkippedAt(order, skip, j);
      printed := true;
    }
  }

  /** If the first j tests are not skipped and the next one is (or there is none), the run stops after j. */
  lemma {:induction false} UntilSkippedAt<T>(order: seq<T>, skip: map<T, bool>, j: nat)
    requires forall t | t in order :: t in skip
    requires j <= |order| && forall t | t in order[..j] :: !skip[t]
    requires j < |order| ==> skip[order[j]]
    ensures UntilSkipped(order, skip) == order[..j]
  {
  }
}
