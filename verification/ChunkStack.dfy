/**
  PushOnlyFastStack: pushes take a slot with fetch_add and write into a chunk that
  the first of the racing pushers installs by compare-exchange. Each step is one
  atomic operation or one store of one push call; any number of calls interleave.
  */
module ChunkStack {
  import opened Options
  import opened Arithmetic

  datatype Stage =
    | Slotted                   // has its slot
    | TooLate                   // the slot is beyond the maximum: -1 is returned
    | Missing                   // read a null chunk pointer
    | Allocated(chunk: nat)     // has a new chunk at hand
    | Located(chunk: nat)       // knows the chunk of its slot
    | Returned                  // has stored the item

  /** A push call with its slot, split into chunk number and offset. Call n, in the order of fetch_add, has slot n. */
  datatype Call<T> = Call(item: T, main: nat, sub: nat, stage: Stage)

  /** `cells[c]` is the memory of chunk c, whether installed, at hand or given up. */
  datatype State<T> = State(end: nat, unit: nat, max: nat, chunks: seq<Option<nat>>, cells: seq<seq<Option<T>>>,
    calls: seq<Call<T>>)

  datatype Step<T> = Begin(item: T) | Load(n: nat) | Allocate(n: nat) | Exchange(n: nat) | Store(n: nat)

  predicate Enabled<T>(s: State<T>, step: Step<T>) {
    && s.unit > 0
    && (!step.Begin? ==> step.n < |s.calls|)
    && match step
       case Begin(_) => true
       case Load(n) => s.calls[n].stage.Slotted? && s.calls[n].main < |s.chunks|
       case Allocate(n) => s.calls[n].stage.Missing?
       case Exchange(n) => s.calls[n].stage.Allocated? && s.calls[n].main < |s.chunks|
       case Store(n) =>
         s.calls[n].stage.Located? && s.calls[n].stage.chunk < |s.cells| &&
           s.calls[n].sub < |s.cells[s.calls[n].stage.chunk]|
  }

  function Apply<T>(s: State<T>, step: Step<T>): State<T>
    requires Enabled(s, step)
  {
    match step
    case Begin(x) =>
      var call := Call(x, s.end / s.unit, s.end % s.unit, if s.end >= s.max then TooLate else Slotted);
      s.(end := s.end + 1, calls := s.calls + [call])
    case Load(n) =>
      To(s, n, match s.chunks[s.calls[n].main] case None => Missing case Some(c) => Located(c))
    case Allocate(n) =>
      To(s, n, Allocated(|s.cells|)).(cells := s.cells + [seq(s.unit, _ => None)])
    case Exchange(n) =>
      (match s.chunks[s.calls[n].main]
       case None =>
         To(s, n, Located(s.calls[n].stage.chunk)).(chunks := s.chunks[s.calls[n].main := Some(s.calls[n].stage.chunk)])
       case Some(c) => To(s, n, Located(c)))
    case Store(n) =>
      var c := s.calls[n].stage.chunk;
      To(s, n, Returned).(cells := s.cells[c := s.cells[c][s.calls[n].sub := Some(s.calls[n].item)]])
  }

  function To<T>(s: State<T>, n: nat, stage: Stage): State<T>
    requires n < |s.calls|
  {
    s.(calls := s.calls[n := s.calls[n].(stage := stage)])
  }

  /** The content of a cell of chunk number `main`, if a chunk is installed there. */
  function Cell<T>(s: State<T>, main: nat, sub: nat): Option<T> {
    if main < |s.chunks| && s.chunks[main].Some? && s.chunks[main].value < |s.cells| &&
      sub < |s.cells[s.chunks[main].value]|
    then s.cells[s.chunks[main].value][sub] else None
  }

  /** What get(t) finds, for a token below the maximum. */
  function Get<T>(s: State<T>, t: nat): Option<T>
    requires s.unit > 0
  {
    Cell(s, t / s.unit, t % s.unit)
  }

  // ----------------------------------------------------------------- invariant

  ghost predicate CallOk<T>(s: State<T>, n: nat)
    requires n < |s.calls|
  {
    var c := s.calls[n];
    && (c.stage.TooLate? <==> n >= s.max)
    && (!c.stage.TooLate? ==> c.main < |s.chunks| && c.sub < s.unit)
    && (c.stage.Allocated? ==> c.stage.chunk < |s.cells| && forall i :: 0 <= i < |s.chunks| ==>
         s.chunks[i] != Some(c.stage.chunk))
    && (c.stage.Located? ==> s.chunks[c.main] == Some(c.stage.chunk))
    && (c.stage.Returned? ==> Cell(s, c.main, c.sub) == Some(c.item))
  }

  /** The two numbers of a call are those of its slot. */
  ghost predicate SlotOk<T>(s: State<T>, n: nat)
    requires n < |s.calls| && s.unit > 0
  {
    s.calls[n].main == n / s.unit && s.calls[n].sub == n % s.unit
  }

  /** The slot falls into one of the chunks provided for. */
  ghost predicate HasChunk<T>(s: State<T>, n: nat) {
    s.unit > 0 && n / s.unit < |s.chunks|
  }

  ghost predicate Inv<T>(s: State<T>) {
    && s.unit > 0 && s.end == |s.calls|
    && (forall n {:trigger HasChunk(s, n)} :: 0 <= n < s.max ==> HasChunk(s, n))
    && (forall n {:trigger SlotOk(s, n)} :: 0 <= n < |s.calls| ==> SlotOk(s, n))
    && (forall c :: 0 <= c < |s.cells| ==> |s.cells[c]| == s.unit)
    && (forall i :: 0 <= i < |s.chunks| && s.chunks[i].Some? ==> s.chunks[i].value < |s.cells|)
    && (forall i, j :: 0 <= i < j < |s.chunks| && s.chunks[i].Some? ==> s.chunks[i] != s.chunks[j])
    && (forall n {:trigger CallOk(s, n)} :: 0 <= n < |s.calls| ==> CallOk(s, n))
    && (forall i, j :: 0 <= i < j < |s.calls| && s.calls[i].stage.Allocated? ==> s.calls[i].stage != s.calls[j].stage)
  }

  ghost predicate Init<T>(s: State<T>) {
    && s.unit > 0 && |s.chunks| == (s.max + s.unit - 1) / s.unit && s.end == 0 && s.calls == [] && s.cells == []
    && forall i :: 0 <= i < |s.chunks| ==> s.chunks[i].None?
  }

  /** Different slots are different cells. */
  lemma CellsApart(m: nat, n: nat, unit: nat)
    requires unit > 0 && m != n
    ensures m / unit != n / unit || m % unit != n % unit
  {
    if m / unit == n / unit {
      var q := m / unit;
      assert m == unit * q + m % unit && n == unit * q + n % unit;
    }
  }

  lemma SlotsKept<T>(s: State<T>, t: State<T>)
    requires Inv(s) && t.unit == s.unit && t.max == s.max && |t.chunks| == |s.chunks| && |t.calls| == |s.calls|
    requires forall n :: 0 <= n < |s.calls| ==> t.calls[n].main == s.calls[n].main && t.calls[n].sub == s.calls[n].sub
    ensures forall n :: 0 <= n < t.max ==> HasChunk(t, n)
    ensures forall n :: 0 <= n < |t.calls| ==> SlotOk(t, n)
  {
    forall n | 0 <= n < t.max ensures HasChunk(t, n) { assert HasChunk(s, n); }
    forall n | 0 <= n < |t.calls| ensures SlotOk(t, n) { assert SlotOk(s, n); }
  }

  lemma BeginKeeps<T>(s: State<T>, x: T)
    requires Inv(s) && Enabled(s, Begin(x))
    ensures Inv(Apply(s, Begin(x)))
  {
    var t := Apply(s, Begin(x));
    forall n | 0 <= n < t.max ensures HasChunk(t, n) { assert HasChunk(s, n); }
    forall n | 0 <= n < |t.calls| ensures SlotOk(t, n) { if n < |s.calls| { assert SlotOk(s, n); } }
    forall k | 0 <= k < |t.calls|
      ensures CallOk(t, k)
    {
      if k < |s.calls| { assert CallOk(s, k); } else { assert k < s.max ==> HasChunk(s, k); }
    }
  }

  lemma LoadKeeps<T>(s: State<T>, n: nat)
    requires Inv(s) && Enabled(s, Load(n))
    ensures Inv(Apply(s, Load(n)))
  {
    var t := Apply(s, Load(n));
    SlotsKept(s, t);
    forall k | 0 <= k < |t.calls| ensures CallOk(t, k) { assert CallOk(s, k); }
  }

  lemma AllocateKeeps<T>(s: State<T>, n: nat)
    requires Inv(s) && Enabled(s, Allocate(n))
    ensures Inv(Apply(s, Allocate(n)))
  {
    var t := Apply(s, Allocate(n));
    SlotsKept(s, t);
    forall k | 0 <= k < |t.calls| ensures CallOk(t, k) { assert CallOk(s, k); }
    forall i, j | 0 <= i < j < |t.calls| && t.calls[i].stage.Allocated? ensures t.calls[i].stage != t.calls[j].stage {
      assert CallOk(s, i) && CallOk(s, j);
    }
  }

  lemma ExchangeKeeps<T>(s: State<T>, n: nat)
    requires Inv(s) && Enabled(s, Exchange(n))
    ensures Inv(Apply(s, Exchange(n)))
  {
    var t := Apply(s, Exchange(n));
    SlotsKept(s, t);
    assert CallOk(s, n);
    forall k | 0 <= k < |t.calls| ensures CallOk(t, k) {
      assert CallOk(s, k);
      if k != n { assert s.calls[k].stage != s.calls[n].stage; }
    }
  }

  lemma StoreKeeps<T>(s: State<T>, n: nat)
    requires Inv(s) && Enabled(s, Store(n))
    ensures Inv(Apply(s, Store(n)))
  {
    var t := Apply(s, Store(n));
    SlotsKept(s, t);
    assert CallOk(s, n);
    forall k | 0 <= k < |t.calls| ensures CallOk(t, k) {
      assert CallOk(s, k);
      if k != n { SlotsDiffer(s, k, n); }
    }
  }

  lemma SlotsDiffer<T>(s: State<T>, m: nat, n: nat)
    requires Inv(s) && m < |s.calls| && n < |s.calls| && m != n
    ensures s.calls[m].main != s.calls[n].main || s.calls[m].sub != s.calls[n].sub
  {
    assert SlotOk(s, m) && SlotOk(s, n);
    CellsApart(m, n, s.unit);
  }

  lemma StepKeeps<T>(s: State<T>, step: Step<T>)
    requires Inv(s) && Enabled(s, step)
    ensures Inv(Apply(s, step))
  {
    match step
    case Begin(x) => BeginKeeps(s, x);
    case Load(n) => LoadKeeps(s, n);
    case Allocate(n) => AllocateKeeps(s, n);
    case Exchange(n) => ExchangeKeeps(s, n);
    case Store(n) => StoreKeeps(s, n);
  }

  // ------------------------------------------------------------------ theorems

  ghost predicate IsRun<T>(trace: seq<State<T>>, steps: seq<Step<T>>) {
    && |trace| == |steps| + 1
    && Init(trace[0])
    && forall i :: 0 <= i < |steps| ==> Enabled(trace[i], steps[i]) && trace[i + 1] == Apply(trace[i], steps[i])
  }

  lemma {:induction false} EveryRunKeepsInv<T>(trace: seq<State<T>>, steps: seq<Step<T>>, i: nat)
    requires IsRun(trace, steps) && i < |trace|
    ensures Inv(trace[i])
  {
    if i > 0 {
      EveryRunKeepsInv(trace, steps, i - 1);
      StepKeeps(trace[i - 1], steps[i - 1]);
    } else {
      forall n | 0 <= n < trace[0].max ensures HasChunk(trace[0], n) { ChunkExists(n, trace[0].max, trace[0].unit); }
    }
  }

  lemma ChunkExists(n: nat, max: nat, unit: nat)
    requires unit > 0 && n < max
    ensures n / unit < (max + unit - 1) / unit
  {
    var a, b := n / unit, (max + unit - 1) / unit;
    assert n == unit * a + n % unit && max + unit - 1 == unit * b + (max + unit - 1) % unit;
    if b <= a { MulMonotone(b, a, unit); }
  }

  /** A chunk pointer, once installed, never changes; a returned call stays returned. */
  lemma {:induction false} NothingIsUndone<T>(trace: seq<State<T>>, steps: seq<Step<T>>, i: nat, j: nat)
    requires IsRun(trace, steps) && i <= j < |trace|
    ensures |trace[i].calls| <= |trace[j].calls| && |trace[i].chunks| == |trace[j].chunks|
    ensures forall n :: 0 <= n < |trace[i].calls| && trace[i].calls[n].stage.Returned? ==>
              trace[j].calls[n] == trace[i].calls[n]
    ensures forall m :: 0 <= m < |trace[i].chunks| && trace[i].chunks[m].Some? ==>
              trace[j].chunks[m] == trace[i].chunks[m]
  {
    if i < j { NothingIsUndone(trace, steps, i, j - 1); }
  }

  /** Whatever the interleaving, once a push has returned its token, get on the token finds the item for ever after. */
  lemma PushedItemIsFound<T>(trace: seq<State<T>>, steps: seq<Step<T>>, i: nat, j: nat, n: nat)
    requires IsRun(trace, steps) && i <= j < |trace|
    requires n < |trace[i].calls| && trace[i].calls[n].stage.Returned?
    ensures trace[j].unit > 0 && Get(trace[j], n) == Some(trace[i].calls[n].item)
  {
    EveryRunKeepsInv(trace, steps, j);
    NothingIsUndone(trace, steps, i, j);
    assert CallOk(trace[j], n) && SlotOk(trace[j], n);
  }

  /** All pushers that race for a chunk end up writing into the one that is installed, each into its own cell. */
  lemma RacersShareTheChunk<T>(s: State<T>, m: nat, n: nat)
    requires Inv(s) && m < |s.calls| && n < |s.calls| && s.calls[m].stage.Located? && s.calls[n].stage.Located?
    requires m != n
    ensures s.calls[m].stage.chunk == s.calls[n].stage.chunk <==> s.calls[m].main == s.calls[n].main
    ensures s.calls[m].stage.chunk != s.calls[n].stage.chunk || s.calls[m].sub != s.calls[n].sub
  {
    assert CallOk(s, m) && CallOk(s, n);
    SlotsDiffer(s, m, n);
  }

  /** A push fails exactly if its slot is beyond the maximum; a call that has a slot can always take its next step. */
  lemma NoCallIsStuck<T>(s: State<T>, n: nat)
    requires Inv(s) && n < |s.calls|
    ensures s.calls[n].stage.TooLate? <==> n >= s.max
    ensures s.calls[n].stage.TooLate? || s.calls[n].stage.Returned?
            || Enabled(s, Load(n)) || Enabled(s, Allocate(n)) || Enabled(s, Exchange(n)) || Enabled(s, Store(n))
  {
    assert CallOk(s, n);
  }
}
