/** The run-length coding of code lengths, section 3.2.7 of RFC 1951: scan_tree and send_tree of trees.c
    against the CODELENS state of inflate.c. */
module CodeRuns {
  /** Len stands for the symbols 0 to 15, Repeat for 16, Zeros for 17 (up to ten) and 18. */
  datatype Run = Len(len: nat) | Repeat(count: nat) | Zeros(count: nat)

  predicate ValidRun(r: Run) {
    match r
    case Len(len) => len <= 15
    case Repeat(count) => 3 <= count <= 6
    case Zeros(count) => 3 <= count <= 138
  }

  function Symbol(r: Run): nat {
    match r
    case Len(len) => len
    case Repeat(_) => 16
    case Zeros(count) => if count <= 10 then 17 else 18
  }

  datatype Lengths = Lengths(lens: seq<nat>) | BadRepeat

  function Copies(len: nat, n: nat): (r: seq<nat>)
    ensures |r| == n && forall i :: 0 <= i < n ==> r[i] == len
  {
    seq(n, _ => len)
  }

  /** One step of CODELENS: have are the lengths so far, of total. */
  function Apply(have: seq<nat>, r: Run, total: nat): Lengths {
    match r
    case Len(len) => Lengths(have + [len])
    case Repeat(count) =>
      if have == [] || |have| + count > total then BadRepeat else Lengths(have + Copies(have[|have| - 1], count))
    case Zeros(count) =>
      if |have| + count > total then BadRepeat else Lengths(have + Copies(0, count))
  }

  /** CODELENS for a sequence of symbols. */
  function Expand(have: seq<nat>, runs: seq<Run>, total: nat): Lengths {
    if runs == [] then Lengths(have)
    else
      match Expand(have, runs[..|runs| - 1], total)
      case BadRepeat => BadRepeat
      case Lengths(lens) => Apply(lens, runs[|runs| - 1], total)
  }

  lemma {:induction false} ExpandJoin(have: seq<nat>, a: seq<Run>, mid: seq<nat>, b: seq<Run>, total: nat)
    requires Expand(have, a, total) == Lengths(mid)
    ensures Expand(have, a + b, total) == Expand(mid, b, total)
    decreases |b|
  {
    hide Apply;
    if b == [] {
      assert a + b == a;
    } else {
      var n := |b| - 1;
      assert (a + b)[..|a + b| - 1] == a + b[..n];
      ExpandJoin(have, a, mid, b[..n], total);
    }
  }

  function MaxCount(prev: int, cur: nat): (r: nat)
    ensures r >= 6
  {
    if cur == 0 then 138 else if prev == cur then 6 else 7
  }

  function MinCount(prev: int, cur: nat): (r: nat)
    ensures r == 3 || r == 4
  {
    if cur == 0 || prev == cur then 3 else 4
  }

  /** What is sent for count times the length cur, after the length prev. */
  function Emit(prev: int, cur: nat, count: nat): (r: seq<Run>)
    requires count >= 1
  {
    if count < MinCount(prev, cur) then Plain(cur, count)
    else if cur != 0 then
      if cur != prev then [Len(cur), Repeat(count - 1)] else [Repeat(count)]
    else [Zeros(count)]
  }

  /** The length of the run at n, up to max. */
  function RunLength(lens: seq<nat>, n: nat, max: nat): (r: nat)
    requires n < |lens| && max >= 1
    ensures 1 <= r <= max && n + r <= |lens|
    ensures forall i :: n <= i < n + r ==> lens[i] == lens[n]
    ensures r < max && n + r < |lens| ==> lens[n + r] != lens[n]
    decreases max
  {
    if max > 1 && n + 1 < |lens| && lens[n + 1] == lens[n] then 1 + RunLength(lens, n + 1, max - 1) else 1
  }

  /** The symbols for the lengths from n on, after the length prev. */
  function Runs(lens: seq<nat>, n: nat, prev: int): seq<Run>
    requires n <= |lens|
    decreases |lens| - n
  {
    if n == |lens| then []
    else
      var count := RunLength(lens, n, MaxCount(prev, lens[n]));
      Emit(prev, lens[n], count) + Runs(lens, n + count, lens[n])
  }

  function Plain(len: nat, count: nat): (r: seq<Run>)
    ensures |r| == count && forall i :: 0 <= i < count ==> r[i] == Len(len)
  {
    seq(count, _ => Len(len))
  }

  lemma {:induction false} ExpandLens(have: seq<nat>, len: nat, count: nat, total: nat)
    ensures Expand(have, Plain(len, count), total) == Lengths(have + Copies(len, count))
    decreases count
  {
    var runs := Plain(len, count);
    if count == 0 {
      assert have + Copies(len, 0) == have;
    } else {
      assert runs[..count - 1] == Plain(len, count - 1);
      ExpandLens(have, len, count - 1, total);
      assert Copies(len, count - 1) + [len] == Copies(len, count);
    }
  }

  /** What is sent for a run expands to the run. */
  lemma ExpandEmit(have: seq<nat>, prev: int, cur: nat, count: nat, total: nat)
    requires 1 <= count <= MaxCount(prev, cur) && |have| + count <= total
    requires prev == cur ==> have != [] && have[|have| - 1] == cur
    ensures Expand(have, Emit(prev, cur, count), total) == Lengths(have + Copies(cur, count))
    ensures cur <= 15 ==> forall r :: r in Emit(prev, cur, count) ==> ValidRun(r)
  {
    var runs := Emit(prev, cur, count);
    if count < MinCount(prev, cur) {
      ExpandLens(have, cur, count, total);
    } else if cur != 0 && cur != prev {
      assert runs[..1] == [Len(cur)] && [Len(cur)][..0] == [];
      assert Expand(have, [Len(cur)], total) == Lengths(have + [cur]);
      assert have + [cur] + Copies(cur, count - 1) == have + Copies(cur, count);
    } else {
      assert runs[..0] == [];
    }
  }

  /** The symbols sent for a tree give its lengths back, whatever was sent before. */
  lemma {:induction false} ExpandRuns(have: seq<nat>, lens: seq<nat>, n: nat, prev: int, total: nat)
    requires n <= |lens| && |have| + (|lens| - n) <= total
    requires prev == -1 || (have != [] && have[|have| - 1] == prev)
    ensures Expand(have, Runs(lens, n, prev), total) == Lengths(have + lens[n..])
    decreases |lens| - n
  {
    hide Emit, RunLength, MaxCount, Expand, Runs;
    if n == |lens| {
      NoRuns(have, lens, prev, total);
    } else {
      var cur := lens[n];
      var count := RunLength(lens, n, MaxCount(prev, cur));
      var next := have + Copies(cur, count);
      RunsStep(lens, n, prev);
      ExpandEmit(have, prev, cur, count, total);
      ExpandRuns(next, lens, n + count, cur, total);
      ExpandJoin(have, Emit(prev, cur, count), next, Runs(lens, n + count, cur), total);
      TakeRun(have, lens, n, count);
    }
  }

  lemma NoRuns(have: seq<nat>, lens: seq<nat>, prev: int, total: nat)
    ensures Expand(have, Runs(lens, |lens|, prev), total) == Lengths(have + lens[|lens|..])
  {
    assert have + lens[|lens|..] == have;
  }

  lemma RunsStep(lens: seq<nat>, n: nat, prev: int)
    requires n < |lens|
    ensures var count := RunLength(lens, n, MaxCount(prev, lens[n]));
      Runs(lens, n, prev) == Emit(prev, lens[n], count) + Runs(lens, n + count, lens[n])
  {
  }

  lemma TakeRun(have: seq<nat>, lens: seq<nat>, n: nat, count: nat)
    requires 1 <= count && n + count <= |lens| && forall i :: n <= i < n + count ==> lens[i] == lens[n]
    ensures have + Copies(lens[n], count) + lens[n + count..] == have + lens[n..]
  {
    assert lens[n..n + count] == Copies(lens[n], count);
    assert lens[n..] == lens[n..n + count] + lens[n + count..];
  }

  /** The two trees, sent one after the other and expanded as one sequence, come back without an error. */
  lemma RunsRoundTrip(llens: seq<nat>, dlens: seq<nat>)
    ensures Expand([], Runs(llens, 0, -1) + Runs(dlens, 0, -1), |llens| + |dlens|) == Lengths(llens + dlens)
  {
    hide Expand, Runs;
    var total := |llens| + |dlens|;
    ExpandRuns([], llens, 0, -1, total);
    assert [] + llens[0..] == llens;
    ExpandRuns(llens, dlens, 0, -1, total);
    assert llens + dlens[0..] == llens + dlens;
    ExpandJoin([], Runs(llens, 0, -1), llens, Runs(dlens, 0, -1), total);
  }

  /** All symbols are within the code of 19 symbols, and their counts within their extra bits. */
  lemma {:induction false} RunsValid(lens: seq<nat>, n: nat, prev: int)
    requires n <= |lens| && forall i :: 0 <= i < |lens| ==> lens[i] <= 15
    ensures forall i :: 0 <= i < |Runs(lens, n, prev)| ==> ValidRun(Runs(lens, n, prev)[i])
    decreases |lens| - n
  {
    if n < |lens| {
      var cur := lens[n];
      var count := RunLength(lens, n, MaxCount(prev, cur));
      RunsValid(lens, n + count, cur);
      EmitValid(prev, cur, count);
    }
  }

  lemma EmitValid(prev: int, cur: nat, count: nat)
    requires 1 <= count <= MaxCount(prev, cur) && cur <= 15
    ensures forall i :: 0 <= i < |Emit(prev, cur, count)| ==> ValidRun(Emit(prev, cur, count)[i])
  {
  }

  /** How often a symbol is sent. */
  ghost function Count(runs: seq<Run>, sym: nat): nat {
    if runs == [] then 0 else Count(runs[..|runs| - 1], sym) + if Symbol(runs[|runs| - 1]) == sym then 1 else 0
  }

  lemma {:induction false} CountJoin(a: seq<Run>, b: seq<Run>, sym: nat)
    ensures Count(a + b, sym) == Count(a, sym) + Count(b, sym)
    decreases |b|
  {
    if b == [] {
      assert a + b == a;
    } else {
      assert (a + b)[..|a + b| - 1] == a + b[..|b| - 1];
      CountJoin(a, b[..|b| - 1], sym);
    }
  }
}
