/**
 * The `TestRunner` of src/runtime/runtime.ts.  It differs from the one of
 * src/runtime.ts in two ways: its map records `true` for a test that is added
 * or focused and `false` for a skipped one, and `run` does nothing unless the
 * focus set has a test, in which case it executes exactly the focused tests.
 */
module RuntimeRunner {
  import opened Common
  import opened HyperTest

  class TestRunner<T(==)> {
    /** The keys of `tests` in insertion order. */
    var order: seq<T>
    /** `tests`: the flag each registered test carries (`true` from add/focus, `false` from skip). */
    var flag: map<T, bool>
    /** `testsOnFocus` in insertion order; `None` is the `undefined` that `focusOnLast` adds when there is no test. */
    var focus: seq<Option<T>>

    ghost predicate Valid()
      reads this
    {
      Tracks(order, flag) && Distinct(focus)
    }

    constructor()
      ensures Valid() && order == [] && flag == map[] && focus == []
    {
      order, flag, focus := [], map[], [];
    }

    /** Registers tests with a flag, in order (`tests.set(test, v)` for each). */
    method Register(ts: seq<T>, v: bool)
      requires Valid()
      modifies this
      ensures Valid() && focus == old(focus)
      ensures order == EnrollAll(old(order), ts) && flag == SetAll(old(flag), ts, v)
    {
      var o, m, j := order, flag, 0;
      while j < |ts|
        invariant 0 <= j <= |ts|
        invariant Tracks(o, m) && Distinct(focus) && focus == old(focus)
        invariant EnrollAll(o, ts[j..]) == EnrollAll(old(order), ts)
        invariant SetAll(m, ts[j..], v) == SetAll(old(flag), ts, v)
      {
        RegisterStep(o, m, focus, ts, j, v);
        EnrollTracks(o, m, ts[j], v);
        o := Enroll(o, ts[j]);
        m := m[ts[j] := v];
        j := j + 1;
      }
      assert ts[j..] == [];
      assert EnrollAll(o, ts[j..]) == o && SetAll(m, ts[j..], v) == m;
      order, flag := o, m;
    }

    /** `add(...tests)`: registers the tests with `true`. */
    method Add(ts: seq<T>)
      requires Valid()
      modifies this
      ensures Valid() && focus == old(focus)
      ensures order == EnrollAll(old(order), ts) && flag == SetAll(old(flag), ts, true)
    {
      Register(ts, true);
    }

    /** `skip(...tests)`: registers the tests with `false`. */
    method Skip(ts: seq<T>)
      requires Valid()
      modifies this
      ensures Valid() && focus == old(focus)
      ensures order == EnrollAll(old(order), ts) && flag == SetAll(old(flag), ts, false)
    {
      Register(ts, false);
    }

    /** `focus(...tests)`: registers the tests with `true` and adds them to the focus set. */
    method Focus(ts: seq<T>)
      requires Valid()
      modifies this
      ensures Valid()
      ensures order == EnrollAll(old(order), ts) && flag == SetAll(old(flag), ts, true)
      ensures focus == EnrollAll(old(focus), Somes(ts))
    {
      var o, m, f, j := order, flag, focus, 0;
      while j < |ts|
        invariant 0 <= j <= |ts|
        invariant Tracks(o, m) && Distinct(f)
        invariant EnrollAll(o, ts[j..]) == EnrollAll(old(order), ts)
        invariant SetAll(m, ts[j..], true) == SetAll(old(flag), ts, true)
        invariant EnrollAll(f, Somes(ts[j..])) == EnrollAll(old(focus), Somes(ts))
      {
        RegisterStep(o, m, f, ts, j, true);
        EnrollTracks(o, m, ts[j], true);
        EnrollDistinct(f, Some(ts[j]));
        o := Enroll(o, ts[j]);
        m := m[ts[j] := true];
        f := Enroll(f, Some(ts[j]));
        j := j + 1;
      }
      assert ts[j..] == [] && Somes(ts[j..]) == [];
      assert EnrollAll(o, ts[j..]) == o && EnrollAll(f, Somes(ts[j..])) == f && SetAll(m, ts[j..], true) == m;
      order, flag, focus := o, m, f;
    }

    /** `focusOnLast()`: the focus set becomes the last registered test alone (`undefined` when there is none). */
    method FocusOnLast()
      requires Valid()
      modifies this
      ensures Valid() && order == old(order) && flag == old(flag)
      ensures |focus| == 1
      ensures focus[0] == if order == [] then None else Some(order[|order| - 1])
    {
      focus := [if order == [] then None else Some(order[|order| - 1])];
    }

    /**
     * `run()`: the tests whose `execute` it calls, in order, whether it gets
     * to print, and whether it throws.  Nothing when there is no test or no
     * focused one; otherwise the focused tests, up to a TypeError at the first
     * `undefined` entry that `focusOnLast` put there.
     */
    method Run() returns (executed: seq<T>, printed: bool, crashed: bool)
      requires Valid()
      ensures order == [] || focus == [] ==> executed == [] && !printed && !crashed
      ensures order != [] && focus != [] ==>
        executed == UntilUndefined(focus) && (crashed <==> None in focus) && (printed <==> !crashed)
    {
      if order == [] || focus == [] {
        return [], false, false;
      }
      // the branch over all registered tests is never reached: the focus set is not empty here
      executed, crashed := RunFocused(focus);
      printed := !crashed;
    }
  }
}
