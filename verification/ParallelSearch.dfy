/** Parallel search with ordered output (cmd/fir/sessions.go): a feeder, a pool of workers, one result slot per file
    and a collector that stops at a limit. Whatever the schedule, the output is that of a sequential scan. */
module ParallelSearch {
  import opened Wrappers

  /** A file is its readable lines; a line is the snippet of its match, if it matches. A file that cannot be opened
      has no lines. */
  type File = seq<Option<string>>

  datatype Hit = Hit(file: nat, line: nat, snippet: string)

  // ---- one file ----

  function Matches(file: nat, lines: File): seq<Hit> {
    if |lines| == 0 then []
    else
      var n := |lines| - 1;
      Matches(file, lines[..n]) +
      match lines[n]
      case None => []
      case Some(text) => [Hit(file, n + 1, text)]
  }

  function First<T>(xs: seq<T>, cap: int): seq<T> {
    if cap > 0 && |xs| >= cap then xs[..cap] else xs
  }

  /** The first `perFile` matching lines of a file, or all. */
  function ScanFile(file: nat, lines: File, perFile: int): seq<Hit> {
    First(Matches(file, lines), perFile)
  }

  lemma {:induction false} MatchesGrow(file: nat, lines: File, n: nat)
    requires n <= |lines|
    ensures Matches(file, lines[..n]) <= Matches(file, lines)
    decreases |lines| - n
  {
    if n < |lines| {
      assert lines[..n + 1][..n] == lines[..n];
      MatchesGrow(file, lines, n + 1);
    } else {
      assert lines[..n] == lines;
    }
  }

  lemma FirstOfPrefix(xs: seq<Hit>, ys: seq<Hit>, cap: int)
    requires xs <= ys && (cap > 0 ==> |xs| <= cap)
    ensures xs <= First(ys, cap)
    ensures cap > 0 && |xs| == cap ==> First(ys, cap) == xs
  {
  }

  // ---- which hits these are ----

  /** A hit names a line of the file that matches, counting from 1, and shows its snippet. */
  predicate Shows(file: nat, lines: File, h: Hit) {
    h.file == file && 1 <= h.line <= |lines| && lines[h.line - 1] == Some(h.snippet)
  }

  /** How many of the first n lines match. */
  function MatchCount(lines: File, n: nat): nat
    requires n <= |lines|
  {
    if n == 0 then 0 else MatchCount(lines, n - 1) + if lines[n - 1].Some? then 1 else 0
  }

  /** Within the cap: fewer than `perFile` matching lines come before it. */
  predicate Within(lines: File, perFile: int, h: Hit)
    requires 1 <= h.line <= |lines|
  {
    perFile <= 0 || MatchCount(lines, h.line - 1) < perFile
  }

  lemma {:induction false} MatchCountPrefix(lines: File, n: nat, k: nat)
    requires k <= n <= |lines|
    ensures MatchCount(lines[..n], k) == MatchCount(lines, k)
  {
    if k > 0 {
      MatchCountPrefix(lines, n, k - 1);
    }
  }

  lemma MatchesSnoc(file: nat, lines: File)
    requires |lines| > 0
    ensures var n := |lines| - 1;
            && Matches(file, lines) ==
               Matches(file, lines[..n]) + (if lines[n].Some? then [Hit(file, n + 1, lines[n].value)] else [])
            && MatchCount(lines, n + 1) == MatchCount(lines[..n], n) + if lines[n].Some? then 1 else 0
  {
    MatchCountPrefix(lines, |lines| - 1, |lines| - 1);
  }

  lemma {:induction false} MatchesShow(file: nat, lines: File, h: Hit)
    ensures h in Matches(file, lines) <==> Shows(file, lines, h)
  {
    if |lines| > 0 {
      var n := |lines| - 1;
      MatchesShow(file, lines[..n], h);
      MatchesSnoc(file, lines);
      if Shows(file, lines, h) && h.line == n + 1 {
        assert h == Hit(file, n + 1, lines[n].value);
      }
    }
  }

  lemma {:induction false} MatchesCounted(file: nat, lines: File)
    ensures |Matches(file, lines)| == MatchCount(lines, |lines|)
    ensures forall k | 0 <= k < |Matches(file, lines)| ::
              1 <= Matches(file, lines)[k].line <= |lines| && MatchCount(lines, Matches(file, lines)[k].line - 1) == k
  {
    if |lines| > 0 {
      var n := |lines| - 1;
      var front := Matches(file, lines[..n]);
      MatchesCounted(file, lines[..n]);
      MatchesSnoc(file, lines);
      MatchCountPrefix(lines, n, n);
      forall k | 0 <= k < |front| ensures MatchCount(lines, front[k].line - 1) == k {
        MatchCountPrefix(lines, n, front[k].line - 1);
      }
    }
  }

  lemma {:induction false} MatchesOrdered(file: nat, lines: File)
    ensures forall k | 0 <= k < |Matches(file, lines)| :: Matches(file, lines)[k].line <= |lines|
    ensures forall k, l | 0 <= k < l < |Matches(file, lines)| :: Matches(file, lines)[k].line < Matches(file, lines)[l].line
  {
    if |lines| > 0 {
      MatchesOrdered(file, lines[..|lines| - 1]);
      MatchesSnoc(file, lines);
    }
  }

  /** The matches of a file are exactly its matching lines, in order, the k-th having k matching lines before it. */
  lemma MatchesExactly(file: nat, lines: File)
    ensures forall h :: h in Matches(file, lines) <==> Shows(file, lines, h)
    ensures forall k | 0 <= k < |Matches(file, lines)| ::
              Shows(file, lines, Matches(file, lines)[k]) && MatchCount(lines, Matches(file, lines)[k].line - 1) == k
    ensures forall k, l | 0 <= k < l < |Matches(file, lines)| :: Matches(file, lines)[k].line < Matches(file, lines)[l].line
  {
    MatchesCounted(file, lines);
    MatchesOrdered(file, lines);
    forall h ensures h in Matches(file, lines) <==> Shows(file, lines, h) {
      MatchesShow(file, lines, h);
    }
    forall k | 0 <= k < |Matches(file, lines)| ensures Shows(file, lines, Matches(file, lines)[k]) {
      assert Matches(file, lines)[k] in Matches(file, lines);
    }
  }

  lemma ScanHas(file: nat, lines: File, perFile: int, h: Hit)
    ensures h in ScanFile(file, lines, perFile) <==> Shows(file, lines, h) && Within(lines, perFile, h)
  {
    var all, out := Matches(file, lines), ScanFile(file, lines, perFile);
    MatchesCounted(file, lines);
    MatchesShow(file, lines, h);
    if h in all {
      var k :| 0 <= k < |all| && all[k] == h;
      assert Within(lines, perFile, h) <==> k < |out|;
      if k < |out| {
        assert out[k] == h;
      }
    }
    if h in out {
      var k :| 0 <= k < |out| && out[k] == h;
      assert all[k] == h;
    }
  }

  /** The capped scan: exactly the matching lines within the cap, in order. */
  lemma ScanExactly(file: nat, lines: File, perFile: int)
    ensures forall h :: h in ScanFile(file, lines, perFile) <==> Shows(file, lines, h) && Within(lines, perFile, h)
    ensures forall k, l | 0 <= k < l < |ScanFile(file, lines, perFile)| ::
              ScanFile(file, lines, perFile)[k].line < ScanFile(file, lines, perFile)[l].line
  {
    MatchesOrdered(file, lines);
    forall h ensures h in ScanFile(file, lines, perFile) <==> Shows(file, lines, h) && Within(lines, perFile, h) {
      ScanHas(file, lines, perFile, h);
    }
  }

  /** grepFile; `ctxErr(n)` says whether the context is cancelled when it is looked at after n lines. Undisturbed it is
      the capped scan; cancelled it may stop early, but never invents or skips a hit. */
  method GrepFile(file: nat, lines: File, perFile: int, ctxErr: nat -> bool) returns (hits: seq<Hit>)
    ensures hits <= ScanFile(file, lines, perFile)
    ensures (forall n :: !ctxErr(n)) ==> hits == ScanFile(file, lines, perFile)
    ensures forall k | 0 <= k < |hits| :: Shows(file, lines, hits[k])
    ensures (forall n :: !ctxErr(n)) ==> forall h :: h in hits <==> Shows(file, lines, h) && Within(lines, perFile, h)
  {
    ScanExactly(file, lines, perFile);
    forall h | h in ScanFile(file, lines, perFile) ensures Shows(file, lines, h) {
    }
    if ctxErr(0) {
      return [];
    }
    hits := [];
    for n := 0 to |lines|
      invariant hits == Matches(file, lines[..n]) && (perFile > 0 ==> |hits| < perFile)
    {
      assert lines[..n + 1][..n] == lines[..n];
      MatchesGrow(file, lines, n + 1);
      if lines[n].Some? {
        hits := hits + [Hit(file, n + 1, lines[n].value)];
        if perFile > 0 && |hits| >= perFile {
          FirstOfPrefix(hits, Matches(file, lines), perFile);
          return;
        }
      }
      if (n + 1) % 1000 == 0 && ctxErr(n + 1) {
        FirstOfPrefix(hits, Matches(file, lines), perFile);
        return;
      }
    }
    assert lines[..|lines|] == lines;
  }

  // ---- the pool ----

  datatype Worker =
    | Idle
    | Busy(i: nat)
    | Holding(i: nat, hits: seq<Hit>)
    | Exited

  /** The collector waits for file i, emits what is left of its hits, joins the workers, or is done. */
  datatype Main =
    | Waiting(i: nat)
    | Emitting(i: nat, rest: seq<Hit>)
    | Joining
    | Done

  datatype Job = Job(files: seq<File>, perFile: int, limit: int)

  /** `next` is the feeder's next index, `slots` the buffered results, `taken` how many results were received. */
  datatype Sys = Sys(next: nat, closed: bool, workers: seq<Worker>, slots: map<nat, seq<Hit>>, main: Main, taken: nat,
                     emitted: seq<Hit>, cancelled: bool)

  datatype Label =
    | Feed(w: nat)
    | CloseWork
    | Grep(w: nat, hits: seq<Hit>)
    | Deliver(w: nat)
    | Exit(w: nat)
    | Take
    | NextFile
    | Emit
    | Finish
    | Join

  function Scan(job: Job, i: nat): seq<Hit>
    requires i < |job.files|
  {
    ScanFile(i, job.files[i], job.perFile)
  }

  predicate Wants(job: Job, emitted: seq<Hit>) { job.limit <= 0 || |emitted| < job.limit }

  ghost predicate Next(job: Job, s: Sys, l: Label, t: Sys) {
    match l
    case Feed(w) =>
      !s.closed && s.next < |job.files| && w < |s.workers| && s.workers[w] == Idle &&
      t == s.(workers := s.workers[w := Busy(s.next)], next := s.next + 1)
    case CloseWork => !s.closed && (s.next == |job.files| || s.cancelled) && t == s.(closed := true)
    case Grep(w, hits) =>
      w < |s.workers| && s.workers[w].Busy? && s.workers[w].i < |job.files| &&
      (hits == Scan(job, s.workers[w].i) || (s.cancelled && hits <= Scan(job, s.workers[w].i))) &&
      t == s.(workers := s.workers[w := Holding(s.workers[w].i, hits)])
    case Deliver(w) =>
      w < |s.workers| && s.workers[w].Holding? && s.workers[w].i !in s.slots &&
      t == s.(slots := s.slots[s.workers[w].i := s.workers[w].hits], workers := s.workers[w := Idle])
    case Exit(w) => w < |s.workers| && s.workers[w] == Idle && s.closed && t == s.(workers := s.workers[w := Exited])
    case Take =>
      s.main.Waiting? && s.main.i < |job.files| && s.main.i in s.slots &&
      t == s.(main := Emitting(s.main.i, s.slots[s.main.i]), slots := s.slots - {s.main.i}, taken := s.taken + 1)
    case NextFile => s.main.Emitting? && s.main.rest == [] && t == s.(main := Waiting(s.main.i + 1))
    case Emit =>
      s.main.Emitting? && s.main.rest != [] &&
      var out := s.emitted + [s.main.rest[0]];
      t == if Wants(job, out) then s.(emitted := out, main := Emitting(s.main.i, s.main.rest[1..]))
           else s.(emitted := out, main := Joining, cancelled := true)
    case Finish => s.main == Waiting(|job.files|) && t == s.(main := Joining)
    case Join => s.main == Joining && (forall w | 0 <= w < |s.workers| :: s.workers[w] == Exited) && t == s.(main := Done)
  }

  ghost predicate Init(job: Job, s: Sys) {
    && |s.workers| > 0 && (forall w | 0 <= w < |s.workers| :: s.workers[w] == Idle)
    && s == Sys(0, false, s.workers, map[], Waiting(0), 0, [], false)
  }

  // ---- the sequential scan ----

  function Upto(job: Job, n: nat): seq<Hit>
    requires n <= |job.files|
  {
    if n == 0 then [] else Upto(job, n - 1) + Scan(job, n - 1)
  }

  /** File after file, each capped, and the whole cut at the limit. */
  function Sequential(job: Job): seq<Hit> { First(Upto(job, |job.files|), job.limit) }

  lemma {:induction false} UptoGrows(job: Job, n: nat)
    requires n <= |job.files|
    ensures Upto(job, n) <= Upto(job, |job.files|)
    decreases |job.files| - n
  {
    if n < |job.files| {
      UptoGrows(job, n + 1);
    }
  }

  // ---- the invariant ----

  predicate Active(w: Worker) { w.Busy? || w.Holding? }

  ghost predicate WithSome(workers: seq<Worker>, i: nat) {
    exists w :: 0 <= w < |workers| && Active(workers[w]) && workers[w].i == i
  }

  /** Each file fed is in one place: with one worker, in its slot, or received. */
  ghost predicate Placed(job: Job, s: Sys) {
    && s.taken <= s.next <= |job.files|
    && (forall w | 0 <= w < |s.workers| && Active(s.workers[w]) ::
          s.taken <= s.workers[w].i < s.next && s.workers[w].i !in s.slots)
    && (forall v, w | 0 <= v < w < |s.workers| && Active(s.workers[v]) && Active(s.workers[w]) ::
          s.workers[v].i != s.workers[w].i)
    && (forall i | i in s.slots :: s.taken <= i < s.next)
    && (forall i: nat | s.taken <= i < s.next && i !in s.slots :: WithSome(s.workers, i))
  }

  /** Until the search is cancelled, results are whole. */
  ghost predicate Whole(job: Job, s: Sys) {
    !s.cancelled ==>
      && (forall i | i in s.slots :: i < |job.files| && s.slots[i] == Scan(job, i))
      && (forall w | 0 <= w < |s.workers| && s.workers[w].Holding? ::
            s.workers[w].i < |job.files| && s.workers[w].hits == Scan(job, s.workers[w].i))
  }

  /** What has been emitted is the sequential scan so far. */
  ghost predicate Ordered(job: Job, s: Sys) {
    match s.main
    case Waiting(i) => i == s.taken && i <= |job.files| && s.emitted == Upto(job, i) && Wants(job, s.emitted) && !s.cancelled
    case Emitting(i, rest) =>
      i < |job.files| && s.taken == i + 1 && s.emitted + rest == Upto(job, i + 1) && Wants(job, s.emitted) && !s.cancelled
    case Joining => s.emitted == Sequential(job) && (s.cancelled || s.taken == |job.files|)
    case Done => s.emitted == Sequential(job)
  }

  ghost predicate Pool(job: Job, s: Sys) {
    && |s.workers| > 0
    && (s.closed ==> s.next == |job.files| || s.cancelled)
    && (forall w | 0 <= w < |s.workers| && s.workers[w] == Exited :: s.closed)
  }

  ghost predicate Inv(job: Job, s: Sys) {
    Placed(job, s) && Whole(job, s) && Ordered(job, s) && Pool(job, s)
  }

  predicate ByWorker(l: Label) { l.Feed? || l.Grep? || l.Deliver? || l.Exit? }

  lemma OthersStay(job: Job, s: Sys, l: Label, t: Sys, v: nat)
    requires Next(job, s, l, t) && ByWorker(l) && v < |t.workers|
    ensures |t.workers| == |s.workers| && (v != l.w ==> t.workers[v] == s.workers[v])
  {
  }

  /** A worker keeps its file, gets the next one, or is rid of it: nobody else is concerned. */
  lemma WorkerStepKeepsWith(job: Job, s: Sys, l: Label, t: Sys, i: nat)
    requires Placed(job, s) && Next(job, s, l, t) && ByWorker(l)
    requires t.taken <= i < t.next && i !in t.slots
    ensures WithSome(t.workers, i)
  {
    var w := l.w;
    if l.Feed? && i == s.next {
      assert Active(t.workers[w]) && t.workers[w].i == i;
    } else {
      assert i !in s.slots && WithSome(s.workers, i);
      var v :| 0 <= v < |s.workers| && Active(s.workers[v]) && s.workers[v].i == i;
      OthersStay(job, s, l, t, v);
      assert Active(t.workers[v]) && t.workers[v].i == i;
    }
  }

  lemma WorkerStepKeepsActive(job: Job, s: Sys, l: Label, t: Sys, v: nat)
    requires Placed(job, s) && Next(job, s, l, t) && ByWorker(l) && v < |t.workers| && Active(t.workers[v])
    ensures t.taken <= t.workers[v].i < t.next && t.workers[v].i !in t.slots
    ensures forall w: nat | w < |t.workers| && w != v && Active(t.workers[w]) :: t.workers[w].i != t.workers[v].i
  {
    forall w: nat | w < |t.workers| && w != l.w ensures t.workers[w] == s.workers[w] {
      OthersStay(job, s, l, t, w);
    }
  }

  lemma WorkerStepKeepsPlaced(job: Job, s: Sys, l: Label, t: Sys)
    requires Placed(job, s) && Next(job, s, l, t) && ByWorker(l)
    ensures Placed(job, t)
  {
    forall v: nat | v < |t.workers| && Active(t.workers[v])
      ensures t.taken <= t.workers[v].i < t.next && t.workers[v].i !in t.slots
      ensures forall w: nat | w < |t.workers| && w != v && Active(t.workers[w]) :: t.workers[w].i != t.workers[v].i
    {
      WorkerStepKeepsActive(job, s, l, t, v);
    }
    forall i: nat | t.taken <= i < t.next && i !in t.slots ensures WithSome(t.workers, i) {
      WorkerStepKeepsWith(job, s, l, t, i);
    }
  }

  lemma WorkerStepKeepsWhole(job: Job, s: Sys, l: Label, t: Sys)
    requires Placed(job, s) && Whole(job, s) && Next(job, s, l, t) && ByWorker(l)
    ensures Whole(job, t)
  {
    forall v | 0 <= v < |t.workers| && v != l.w ensures t.workers[v] == s.workers[v] {
      OthersStay(job, s, l, t, v);
    }
  }

  lemma WorkerStepKeepsPool(job: Job, s: Sys, l: Label, t: Sys)
    requires Pool(job, s) && Next(job, s, l, t) && ByWorker(l)
    ensures Pool(job, t)
  {
    forall v | 0 <= v < |t.workers| && v != l.w ensures t.workers[v] == s.workers[v] {
      OthersStay(job, s, l, t, v);
    }
  }

  lemma WorkerStepKeepsInv(job: Job, s: Sys, l: Label, t: Sys)
    requires Inv(job, s) && Next(job, s, l, t) && ByWorker(l)
    ensures Inv(job, t)
  {
    WorkerStepKeepsPlaced(job, s, l, t);
    WorkerStepKeepsWhole(job, s, l, t);
    WorkerStepKeepsPool(job, s, l, t);
  }

  lemma TakeKeepsPlaced(job: Job, s: Sys, t: Sys)
    requires Placed(job, s) && Next(job, s, Take, t) && s.main.i == s.taken
    ensures Placed(job, t)
  {
    forall i: nat | t.taken <= i < t.next && i !in t.slots ensures WithSome(t.workers, i) {
      assert i !in s.slots;
    }
  }

  lemma TakeKeepsInv(job: Job, s: Sys, t: Sys)
    requires Inv(job, s) && Next(job, s, Take, t)
    ensures Inv(job, t)
  {
    TakeKeepsPlaced(job, s, t);
  }

  lemma EmitKeepsOrder(job: Job, s: Sys, t: Sys)
    requires Ordered(job, s) && Next(job, s, Emit, t)
    ensures Ordered(job, t)
  {
    var i, rest := s.main.i, s.main.rest;
    var out := s.emitted + [rest[0]];
    assert out + rest[1..] == s.emitted + rest;
    if !Wants(job, out) {
      assert |out| == job.limit;
      assert out <= Upto(job, i + 1);
      UptoGrows(job, i + 1);
      FirstOfPrefix(out, Upto(job, |job.files|), job.limit);
    }
  }

  lemma EmitKeepsInv(job: Job, s: Sys, t: Sys)
    requires Inv(job, s) && Next(job, s, Emit, t)
    ensures Inv(job, t)
  {
    EmitKeepsOrder(job, s, t);
    assert t.workers == s.workers && t.slots == s.slots && t.taken == s.taken && t.next == s.next;
    SamePlaces(job, s, t);
  }

  lemma SamePlaces(job: Job, s: Sys, t: Sys)
    requires Placed(job, s) && t.workers == s.workers && t.slots == s.slots && t.taken == s.taken && t.next == s.next
    ensures Placed(job, t)
  {
  }

  /** The collector goes to the next file, or is done; or the feeder closes: workers and results stay as they are. */
  lemma PlainStepKeepsInv(job: Job, s: Sys, l: Label, t: Sys)
    requires Inv(job, s) && Next(job, s, l, t) && (l.NextFile? || l.CloseWork? || l.Finish? || l.Join?)
    ensures Inv(job, t)
  {
    SamePlaces(job, s, t);
    PlainStepKeepsOrder(job, s, l, t);
    PlainStepKeepsPool(job, s, l, t);
  }

  lemma PlainStepKeepsOrder(job: Job, s: Sys, l: Label, t: Sys)
    requires Ordered(job, s) && Next(job, s, l, t) && (l.NextFile? || l.CloseWork? || l.Finish? || l.Join?)
    ensures Ordered(job, t)
  {
    assert s.emitted + [] == s.emitted;
  }

  lemma PlainStepKeepsPool(job: Job, s: Sys, l: Label, t: Sys)
    requires Whole(job, s) && Pool(job, s) && Next(job, s, l, t) && (l.NextFile? || l.CloseWork? || l.Finish? || l.Join?)
    ensures Whole(job, t) && Pool(job, t)
  {
    assert t.workers == s.workers && t.slots == s.slots && t.cancelled == s.cancelled && t.next == s.next;
  }

  lemma NextKeepsInv(job: Job, s: Sys, l: Label, t: Sys)
    requires Inv(job, s) && Next(job, s, l, t)
    ensures Inv(job, t)
  {
    match l
    case Take => TakeKeepsInv(job, s, t);
    case Emit => EmitKeepsInv(job, s, t);
    case NextFile => PlainStepKeepsInv(job, s, l, t);
    case CloseWork => PlainStepKeepsInv(job, s, l, t);
    case Finish => PlainStepKeepsInv(job, s, l, t);
    case Join => PlainStepKeepsInv(job, s, l, t);
    case _ => WorkerStepKeepsInv(job, s, l, t);
  }

  ghost predicate Run(job: Job, states: seq<Sys>, labels: seq<Label>) {
    && |states| == |labels| + 1 && Init(job, states[0])
    && forall i | 0 <= i < |labels| :: Next(job, states[i], labels[i], states[i + 1])
  }

  lemma InitInv(job: Job, s: Sys)
    requires Init(job, s)
    ensures Inv(job, s)
  {
  }

  lemma RunStep(job: Job, states: seq<Sys>, labels: seq<Label>, i: nat)
    requires Run(job, states, labels) && i < |labels|
    ensures Next(job, states[i], labels[i], states[i + 1])
  {
  }

  lemma RunStepKeepsInv(job: Job, states: seq<Sys>, labels: seq<Label>, i: nat)
    requires Run(job, states, labels) && i < |labels| && Inv(job, states[i])
    ensures Inv(job, states[i + 1])
  {
    RunStep(job, states, labels, i);
    NextKeepsInv(job, states[i], labels[i], states[i + 1]);
  }

  lemma RunStarts(job: Job, states: seq<Sys>, labels: seq<Label>)
    requires Run(job, states, labels)
    ensures Inv(job, states[0])
  {
    InitInv(job, states[0]);
  }

  lemma {:induction false} ReachedKeepsInv(job: Job, states: seq<Sys>, labels: seq<Label>, i: nat)
    requires Run(job, states, labels) && i < |states|
    ensures Inv(job, states[i])
  {
    if i == 0 {
      RunStarts(job, states, labels);
    } else {
      ReachedKeepsInv(job, states, labels, i - 1);
      RunStepKeepsInv(job, states, labels, i - 1);
    }
  }

  lemma RunKeepsInv(job: Job, states: seq<Sys>, labels: seq<Label>)
    requires Run(job, states, labels)
    ensures forall i | 0 <= i < |states| :: Inv(job, states[i])
  {
    forall i | 0 <= i < |states| ensures Inv(job, states[i]) {
      ReachedKeepsInv(job, states, labels, i);
    }
  }

  /** For any number of workers and any schedule, what is emitted is at every moment a prefix of the sequential scan,
      and all of it at the end. */
  lemma SearchIsSequential(job: Job, states: seq<Sys>, labels: seq<Label>, i: nat)
    requires Run(job, states, labels) && i < |states|
    ensures states[i].emitted <= Sequential(job)
    ensures states[i].main == Done ==> states[i].emitted == Sequential(job)
  {
    ReachedKeepsInv(job, states, labels, i);
    var s := states[i];
    match s.main
    case Waiting(k) =>
      UptoGrows(job, k);
      FirstOfPrefix(s.emitted, Upto(job, |job.files|), job.limit);
    case Emitting(k, rest) =>
      UptoGrows(job, k + 1);
      assert s.emitted <= s.emitted + rest;
      FirstOfPrefix(s.emitted, Upto(job, |job.files|), job.limit);
    case _ =>
  }

  /** No worker ever blocks handing over its result. */
  lemma WorkersNeverBlock(job: Job, states: seq<Sys>, labels: seq<Label>, i: nat, w: nat)
    requires Run(job, states, labels) && i < |states| && w < |states[i].workers| && states[i].workers[w].Holding?
    ensures exists t :: Next(job, states[i], Deliver(w), t)
  {
    ReachedKeepsInv(job, states, labels, i);
    var s := states[i];
    assert Active(s.workers[w]);
    var t := s.(slots := s.slots[s.workers[w].i := s.workers[w].hits], workers := s.workers[w := Idle]);
    assert Next(job, s, Deliver(w), t);
  }

  /** Nothing that a cancelled grep returned is emitted: emission ends with the cancellation. */
  lemma NothingEmittedAfterCancel(job: Job, states: seq<Sys>, labels: seq<Label>, i: nat)
    requires Run(job, states, labels) && i < |labels| && states[i].cancelled
    ensures states[i + 1].emitted == states[i].emitted
  {
    ReachedKeepsInv(job, states, labels, i);
    RunStep(job, states, labels, i);
  }

  /** Every reachable state but the last has an enabled step. */
  lemma NeverStuck(job: Job, s: Sys)
    requires Inv(job, s) && s.main != Done
    ensures exists l, t :: Next(job, s, l, t)
  {
    if w :| 0 <= w < |s.workers| && s.workers[w].Busy? {
      var i := s.workers[w].i;
      assert Active(s.workers[w]);
      assert Next(job, s, Grep(w, Scan(job, i)), s.(workers := s.workers[w := Holding(i, Scan(job, i))]));
    } else if w :| 0 <= w < |s.workers| && s.workers[w].Holding? {
      assert Active(s.workers[w]);
      var t := s.(slots := s.slots[s.workers[w].i := s.workers[w].hits], workers := s.workers[w := Idle]);
      assert Next(job, s, Deliver(w), t);
    } else {
      match s.main {
        case Emitting(i, rest) =>
          if rest == [] {
            assert Next(job, s, NextFile, s.(main := Waiting(i + 1)));
          } else {
            var out := s.emitted + [rest[0]];
            var t := if Wants(job, out) then s.(emitted := out, main := Emitting(i, rest[1..]))
                     else s.(emitted := out, main := Joining, cancelled := true);
            assert Next(job, s, Emit, t);
          }
        case Joining => JoiningMoves(job, s);
        case Waiting(i) => WaitingMoves(job, s);
      }
    }
  }

  lemma JoiningMoves(job: Job, s: Sys)
    requires Inv(job, s) && s.main == Joining
    requires forall w | 0 <= w < |s.workers| :: s.workers[w] == Idle || s.workers[w] == Exited
    ensures exists l, t :: Next(job, s, l, t)
  {
    if !s.closed {
      assert Next(job, s, CloseWork, s.(closed := true));
    } else if w :| 0 <= w < |s.workers| && s.workers[w] == Idle {
      assert Next(job, s, Exit(w), s.(workers := s.workers[w := Exited]));
    } else {
      assert Next(job, s, Join, s.(main := Done));
    }
  }

  lemma WaitingMoves(job: Job, s: Sys)
    requires Inv(job, s) && s.main.Waiting?
    requires forall w | 0 <= w < |s.workers| :: s.workers[w] == Idle || s.workers[w] == Exited
    ensures exists l, t :: Next(job, s, l, t)
  {
    var i := s.main.i;
    if i == |job.files| {
      assert Next(job, s, Finish, s.(main := Joining));
    } else if i in s.slots {
      assert Next(job, s, Take, s.(main := Emitting(i, s.slots[i]), slots := s.slots - {i}, taken := s.taken + 1));
    } else {
      assert !WithSome(s.workers, i);
      assert s.next <= i && !s.closed;
      assert s.workers[0] == Idle;
      assert Next(job, s, Feed(0), s.(workers := s.workers[0 := Busy(s.next)], next := s.next + 1));
    }
  }

  // ---- which hits are emitted ----

  /** A hit of the search: a matching line of one of the files, within the cap of its file. */
  predicate IsHit(job: Job, h: Hit) {
    h.file < |job.files| && Shows(h.file, job.files[h.file], h) && Within(job.files[h.file], job.perFile, h)
  }

  predicate Earlier(g: Hit, h: Hit) { g.file < h.file || (g.file == h.file && g.line < h.line) }

  ghost predicate InOrder(hits: seq<Hit>) { forall k, l | 0 <= k < l < |hits| :: Earlier(hits[k], hits[l]) }

  lemma InOrderConcat(a: seq<Hit>, b: seq<Hit>, file: nat)
    requires InOrder(a) && InOrder(b)
    requires (forall k | 0 <= k < |a| :: a[k].file < file) && forall k | 0 <= k < |b| :: b[k].file == file
    ensures InOrder(a + b)
  {
  }

  lemma ScanInOrder(job: Job, i: nat)
    requires i < |job.files|
    ensures InOrder(Scan(job, i)) && forall k | 0 <= k < |Scan(job, i)| :: Scan(job, i)[k].file == i
  {
    var scan := Scan(job, i);
    ScanExactly(i, job.files[i], job.perFile);
    forall k | 0 <= k < |scan| ensures scan[k].file == i {
      assert scan[k] in scan;
    }
  }

  lemma ScanHits(job: Job, i: nat, h: Hit)
    requires i < |job.files|
    ensures h in Scan(job, i) <==> h.file == i && IsHit(job, h)
  {
    ScanHas(i, job.files[i], job.perFile, h);
  }

  lemma {:induction false} UptoHits(job: Job, n: nat, h: Hit)
    requires n <= |job.files|
    ensures h in Upto(job, n) <==> h.file < n && IsHit(job, h)
  {
    if n > 0 {
      UptoHits(job, n - 1, h);
      ScanHits(job, n - 1, h);
      InConcat(Upto(job, n - 1), Scan(job, n - 1), h);
    }
  }

  lemma InConcat(a: seq<Hit>, b: seq<Hit>, h: Hit)
    ensures h in a + b <==> h in a || h in b
  {
  }

  lemma {:induction false} UptoInOrder(job: Job, n: nat)
    requires n <= |job.files|
    ensures InOrder(Upto(job, n)) && forall k | 0 <= k < |Upto(job, n)| :: Upto(job, n)[k].file < n
  {
    if n > 0 {
      UptoInOrder(job, n - 1);
      ScanInOrder(job, n - 1);
      InOrderConcat(Upto(job, n - 1), Scan(job, n - 1), n - 1);
    }
  }

  lemma NotLater(all: seq<Hit>, k: nat, l: nat)
    requires InOrder(all) && k < |all| && l < |all|
    ensures k <= l ==> !Earlier(all[l], all[k])
  {
    assert k < l ==> Earlier(all[k], all[l]);
  }

  /** Hits before a point of an ordered list come from before that point. */
  lemma EarlierIsBefore(all: seq<Hit>, k: nat, h: Hit)
    requires InOrder(all) && k < |all| && h in all && Earlier(h, all[k])
    ensures h in all[..k]
  {
    var l :| 0 <= l < |all| && all[l] == h;
    NotLater(all, k, l);
    assert all[..k][l] == h;
  }

  /** What a search emits: at every moment hits of the search, by file and line, leaving none out on the way; and when it is
      done, all of them, or the first `limit`. */
  lemma EmittedExactly(job: Job, states: seq<Sys>, labels: seq<Label>, i: nat)
    requires Run(job, states, labels) && i < |states|
    ensures var out := states[i].emitted;
            && (forall k | 0 <= k < |out| :: IsHit(job, out[k]))
            && (forall k, l | 0 <= k < l < |out| :: Earlier(out[k], out[l]))
            && (forall h, k | 0 <= k < |out| && IsHit(job, h) && Earlier(h, out[k]) :: h in out)
            && (job.limit > 0 ==> |out| <= job.limit)
            && (states[i].main == Done && (job.limit <= 0 || |out| < job.limit) ==> forall h :: IsHit(job, h) ==> h in out)
  {
    var out, all := states[i].emitted, Upto(job, |job.files|);
    SearchIsSequential(job, states, labels, i);
    UptoInOrder(job, |job.files|);
    assert out <= Sequential(job) <= all;
    forall h ensures h in all <==> IsHit(job, h) {
      UptoHits(job, |job.files|, h);
    }
    forall k | 0 <= k < |out| ensures out[k] == all[k] && IsHit(job, out[k]) {
      assert all[k] in all;
    }
    forall h, k | 0 <= k < |out| && IsHit(job, h) && Earlier(h, out[k]) ensures h in out {
      EarlierIsBefore(all, k, h);
      assert all[..k] <= out;
    }
  }

  // ---- every schedule ends ----

  function Load(w: Worker): nat { if w.Busy? then 2 else if w.Holding? then 1 else 0 }

  function TotalLoad(workers: seq<Worker>): nat {
    if |workers| == 0 then 0 else TotalLoad(workers[..|workers| - 1]) + Load(workers[|workers| - 1])
  }

  function Alive(workers: seq<Worker>): nat {
    if |workers| == 0 then 0
    else Alive(workers[..|workers| - 1]) + if workers[|workers| - 1] == Exited then 0 else 1
  }

  lemma {:induction false} WorkerChange(workers: seq<Worker>, w: nat, new': Worker)
    requires w < |workers|
    ensures TotalLoad(workers[w := new']) == TotalLoad(workers) - Load(workers[w]) + Load(new')
    ensures Alive(workers[w := new']) ==
            Alive(workers) - (if workers[w] == Exited then 0 else 1) + (if new' == Exited then 0 else 1)
  {
    var n := |workers| - 1;
    if w < n {
      WorkerChange(workers[..n], w, new');
      assert workers[w := new'][..n] == workers[..n][w := new'];
    } else {
      assert workers[w := new'][..n] == workers[..n];
    }
  }

  /** Hits of files the collector has not come to. */
  function Unread(job: Job, i: nat): nat
    requires i <= |job.files|
  {
    UptoGrows(job, i);
    |Upto(job, |job.files|)| - |Upto(job, i)|
  }

  lemma UnreadStep(job: Job, i: nat)
    requires i < |job.files|
    ensures Unread(job, i) == Unread(job, i + 1) + |Scan(job, i)|
  {
    UptoGrows(job, i + 1);
  }

  /** What the collector still has to do: hits to emit, files to go through, and to finish. */
  function CollectorLeft(job: Job, main: Main): nat
    requires main.Waiting? ==> main.i <= |job.files|
    requires main.Emitting? ==> main.i < |job.files|
  {
    match main
    case Waiting(i) => Unread(job, i) + 2 * (|job.files| - i) + 2
    case Emitting(i, rest) => Unread(job, i + 1) + |rest| + 2 * (|job.files| - i) + 1
    case Joining => 1
    case Done => 0
  }

  /** What is left to do: files to feed, work in the pool, results to receive, the collector's part, the feeder to close,
      workers to leave. */
  ghost function WorkLeft(job: Job, s: Sys): nat
    requires Placed(job, s) && Ordered(job, s)
  {
    5 * (|job.files| - s.next) + 2 * TotalLoad(s.workers) + |s.slots| + CollectorLeft(job, s.main)
    + (if s.closed then 0 else 1) + Alive(s.workers)
  }

  /** A worker's step leaves less, counting what it hands on. */
  lemma WorkerStepLoad(job: Job, s: Sys, l: Label, t: Sys)
    requires Next(job, s, l, t) && ByWorker(l)
    ensures t.main == s.main && t.closed == s.closed
    ensures 5 * (|job.files| - t.next) + 2 * TotalLoad(t.workers) + |t.slots| + Alive(t.workers) <
            5 * (|job.files| - s.next) + 2 * TotalLoad(s.workers) + |s.slots| + Alive(s.workers)
  {
    WorkerChange(s.workers, l.w, t.workers[l.w]);
    assert t.workers == s.workers[l.w := t.workers[l.w]];
    assert |t.slots| == |s.slots| + if l.Deliver? then 1 else 0;
  }

  lemma WorkerStepFinishes(job: Job, s: Sys, l: Label, t: Sys)
    requires Inv(job, s) && Inv(job, t) && Next(job, s, l, t) && ByWorker(l)
    ensures WorkLeft(job, t) < WorkLeft(job, s)
  {
    WorkerStepLoad(job, s, l, t);
  }

  lemma TakeFinishes(job: Job, s: Sys, t: Sys)
    requires Inv(job, s) && Inv(job, t) && Next(job, s, Take, t)
    ensures WorkLeft(job, t) < WorkLeft(job, s)
  {
    assert |t.slots| == |s.slots| - 1;
    UnreadStep(job, s.main.i);
    assert s.slots[s.main.i] == Scan(job, s.main.i);
  }

  lemma EmitFinishes(job: Job, s: Sys, t: Sys)
    requires Inv(job, s) && Inv(job, t) && Next(job, s, Emit, t)
    ensures WorkLeft(job, t) < WorkLeft(job, s)
  {
    assert CollectorLeft(job, t.main) < CollectorLeft(job, s.main);
  }

  lemma CollectorStepFinishes(job: Job, s: Sys, l: Label, t: Sys)
    requires Inv(job, s) && Inv(job, t) && Next(job, s, l, t) && (l.NextFile? || l.CloseWork? || l.Finish? || l.Join?)
    ensures WorkLeft(job, t) < WorkLeft(job, s)
  {
    assert t.workers == s.workers && t.slots == s.slots && t.next == s.next;
    assert if l.CloseWork? then t.main == s.main else t.closed == s.closed && CollectorLeft(job, t.main) < CollectorLeft(job, s.main);
  }

  lemma StepsFinish(job: Job, s: Sys, l: Label, t: Sys)
    requires Inv(job, s) && Next(job, s, l, t)
    ensures Inv(job, t) && WorkLeft(job, t) < WorkLeft(job, s)
  {
    NextKeepsInv(job, s, l, t);
    if ByWorker(l) {
      WorkerStepFinishes(job, s, l, t);
    } else if l.Take? {
      TakeFinishes(job, s, t);
    } else if l.Emit? {
      EmitFinishes(job, s, t);
    } else {
      CollectorStepFinishes(job, s, l, t);
    }
  }

  lemma {:induction false} IdleLoad(workers: seq<Worker>)
    requires forall w | 0 <= w < |workers| :: workers[w] == Idle
    ensures TotalLoad(workers) == 0 && Alive(workers) == |workers|
  {
    if |workers| > 0 {
      IdleLoad(workers[..|workers| - 1]);
    }
  }

  /** What is left after i steps of a run. */
  ghost function LeftAt(job: Job, states: seq<Sys>, labels: seq<Label>, i: nat): nat
    requires Run(job, states, labels) && i < |states|
  {
    ReachedKeepsInv(job, states, labels, i);
    WorkLeft(job, states[i])
  }

  lemma RunStepFinishes(job: Job, states: seq<Sys>, labels: seq<Label>, i: nat)
    requires Run(job, states, labels) && i < |labels|
    ensures LeftAt(job, states, labels, i + 1) < LeftAt(job, states, labels, i)
  {
    ReachedKeepsInv(job, states, labels, i);
    RunStep(job, states, labels, i);
    StepsFinish(job, states[i], labels[i], states[i + 1]);
  }

  lemma {:induction false} WorkDone(job: Job, states: seq<Sys>, labels: seq<Label>, i: nat)
    requires Run(job, states, labels) && i < |states|
    ensures LeftAt(job, states, labels, i) + i <= LeftAt(job, states, labels, 0)
  {
    if i > 0 {
      WorkDone(job, states, labels, i - 1);
      RunStepFinishes(job, states, labels, i - 1);
    }
  }

  lemma LeftAtStart(job: Job, states: seq<Sys>, labels: seq<Label>)
    requires Run(job, states, labels)
    ensures LeftAt(job, states, labels, 0) == 7 * |job.files| + |Upto(job, |job.files|)| + |states[0].workers| + 3
  {
    IdleLoad(states[0].workers);
  }

  lemma StuckIsDone(job: Job, states: seq<Sys>, labels: seq<Label>)
    requires Run(job, states, labels) && forall l, t :: !Next(job, states[|labels|], l, t)
    ensures states[|labels|].main == Done && states[|labels|].emitted == Sequential(job)
  {
    ReachedKeepsInv(job, states, labels, |labels|);
    SearchIsSequential(job, states, labels, |labels|);
    if states[|labels|].main != Done {
      NeverStuck(job, states[|labels|]);
    }
  }

  /** Every schedule ends: no run has more steps than seven for each file, one for each hit of the full scan, one for each
      worker and three. So one that goes on as long as it can is done, with the sequential scan emitted. */
  lemma RunsAreBounded(job: Job, states: seq<Sys>, labels: seq<Label>)
    requires Run(job, states, labels)
    ensures |labels| <= 7 * |job.files| + |Upto(job, |job.files|)| + |states[0].workers| + 3
    ensures (forall l, t :: !Next(job, states[|labels|], l, t)) ==>
              states[|labels|].main == Done && states[|labels|].emitted == Sequential(job)
  {
    WorkDone(job, states, labels, |labels|);
    LeftAtStart(job, states, labels);
    if forall l, t :: !Next(job, states[|labels|], l, t) {
      StuckIsDone(job, states, labels);
    }
  }
}
