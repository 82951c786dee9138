/** The three search shapes the scraper uses: an unanchored regular
    expression search (`re.search`, leftmost start wins), a first-element
    lookup (`find`), and a for-loop over blocks that writes a field, may
    reset it and may stop with `break`. */
module Search {
  import opened Text

  /** `re.search` over a pattern whose match attempt at index `k` is `at(s, k)`:
      the attempts run from `i` up to `|s|` and the first one that succeeds is
      the result. */
  function Leftmost<T>(s: string, i: nat, at: (string, nat) -> Option<T>): (r: Option<T>)
    ensures r.None? <==> forall k :: i <= k <= |s| ==> at(s, k).None?
    decreases |s| + 1 - i
  {
    if i > |s| then None
    else if at(s, i).Some? then at(s, i)
    else Leftmost(s, i + 1, at)
  }

  /** A search that succeeds lands on the first attempt that succeeds. */
  lemma {:induction false} LeftmostFound<T>(s: string, i: nat, at: (string, nat) -> Option<T>)
    ensures Leftmost(s, i, at).Some? ==> exists k :: i <= k <= |s| && at(s, k) == Leftmost(s, i, at) && forall j :: i <= j < k ==> at(s, j).None?
    decreases |s| + 1 - i
  {
    if i <= |s| && at(s, i).None? {
      LeftmostFound(s, i + 1, at);
    }
  }

  /** Attempts that fail do not affect where the search lands. */
  lemma {:induction false} LeftmostSkip<T>(s: string, i: nat, j: nat, at: (string, nat) -> Option<T>)
    requires i <= j
    requires forall k :: i <= k < j ==> at(s, k).None?
    ensures Leftmost(s, i, at) == Leftmost(s, j, at)
    decreases j - i
  {
    if i < j && i <= |s| {
      LeftmostSkip(s, i + 1, j, at);
    }
  }

  /** The first successful attempt is the result. */
  lemma LeftmostAt<T>(s: string, k: nat, at: (string, nat) -> Option<T>)
    requires k <= |s| && at(s, k).Some?
    requires forall j :: 0 <= j < k ==> at(s, j).None?
    ensures Leftmost(s, 0, at) == at(s, k)
  {
    LeftmostSkip(s, 0, k, at);
  }

  /** BeautifulSoup's `find`: the first element that satisfies `p`. */
  function First<T>(xs: seq<T>, p: T -> bool): (r: Option<T>)
    ensures r.None? <==> forall i :: 0 <= i < |xs| ==> !p(xs[i])
    ensures r.Some? ==> exists i :: 0 <= i < |xs| && xs[i] == r.value && p(xs[i]) && forall j :: 0 <= j < i ==> !p(xs[j])
  {
    if xs == [] then None
    else if p(xs[0]) then Some(xs[0])
    else
      var r := First(xs[1..], p);
      assert forall i :: 1 <= i < |xs| ==> xs[i] == xs[1..][i - 1];
      r
  }

  /** What one pass of a scanning loop does with one block. */
  datatype Step<V> =
    | Pass            // the block is not the one sought: the loop moves on
    | Reset(value: V) // the field is overwritten and the loop moves on
    | Stop(value: V)  // the field is written and the loop breaks

  /** The value a scanning loop leaves in its field, starting from `current`. */
  function Sweep<T, V>(xs: seq<T>, probe: T -> Step<V>, current: V): V
    decreases |xs|
  {
    if xs == [] then current
    else match probe(xs[0])
      case Pass => Sweep(xs[1..], probe, current)
      case Reset(v) => Sweep(xs[1..], probe, v)
      case Stop(v) => v
  }

  /** One pass of the loop, seen from index `i`. */
  lemma SweepAt<T, V>(xs: seq<T>, i: nat, probe: T -> Step<V>, current: V)
    requires i < |xs|
    ensures Sweep(xs[i..], probe, current) == match probe(xs[i])
      case Pass => Sweep(xs[i + 1..], probe, current)
      case Reset(v) => Sweep(xs[i + 1..], probe, v)
      case Stop(v) => v
  {
    assert xs[i..][0] == xs[i];
    assert xs[i..][1..] == xs[i + 1..];
  }

  /** First match wins: the first block that stops the loop decides the field,
      whatever the blocks before it did. */
  lemma {:induction false} SweepFirstStop<T, V>(xs: seq<T>, probe: T -> Step<V>, current: V, i: nat)
    requires i < |xs| && probe(xs[i]).Stop?
    requires forall j :: 0 <= j < i ==> !probe(xs[j]).Stop?
    ensures Sweep(xs, probe, current) == probe(xs[i]).value
  {
    if i > 0 {
      assert !probe(xs[0]).Stop?;
      forall j | 0 <= j < i - 1 ensures !probe(xs[1..][j]).Stop? {
        assert xs[1..][j] == xs[j + 1];
      }
      var next := if probe(xs[0]).Reset? then probe(xs[0]).value else current;
      SweepFirstStop(xs[1..], probe, next, i - 1);
    }
  }

  /** A loop that never stops and only ever resets to the value the field
      already holds leaves the field as it was. */
  lemma {:induction false} SweepNoStop<T, V>(xs: seq<T>, probe: T -> Step<V>, current: V)
    requires forall j :: 0 <= j < |xs| ==> probe(xs[j]) == Pass || probe(xs[j]) == Reset(current)
    ensures Sweep(xs, probe, current) == current
    decreases |xs|
  {
    if xs != [] {
      forall j | 0 <= j < |xs| - 1 ensures probe(xs[1..][j]) == Pass || probe(xs[1..][j]) == Reset(current) {
        assert xs[1..][j] == xs[j + 1];
      }
      SweepNoStop(xs[1..], probe, current);
    }
  }

  /** Any property of the starting value that every value the loop writes also
      has holds of the final value. */
  lemma {:induction false} SweepKeeps<T, V>(xs: seq<T>, probe: T -> Step<V>, current: V, ok: V -> bool)
    requires ok(current)
    requires forall j :: 0 <= j < |xs| ==> probe(xs[j]).Pass? || ok(probe(xs[j]).value)
    ensures ok(Sweep(xs, probe, current))
    decreases |xs|
  {
    if xs != [] {
      forall j | 0 <= j < |xs| - 1 ensures probe(xs[1..][j]).Pass? || ok(probe(xs[1..][j]).value) {
        assert xs[1..][j] == xs[j + 1];
      }
      match probe(xs[0])
      case Pass => SweepKeeps(xs[1..], probe, current, ok);
      case Reset(v) => SweepKeeps(xs[1..], probe, v, ok);
      case Stop(v) =>
    }
  }
}
