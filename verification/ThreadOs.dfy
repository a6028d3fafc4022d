/** Round-robin tasks on several CPUs, and a spinlock among them (thread-os.c). */
module ThreadOs {
  import opened Bits
  import opened Options

  /** What a task is doing: outside, or between lock and unlock (thread-os.c:26-33). */
  datatype Phase = Outside | Inside

  /** current: the task on each CPU, None before its first interrupt. context: what each task resumes from. */
  datatype System = System(current: seq<Option<nat>>, context: seq<int>, locked: int, phase: seq<Phase>)

  /** An interrupt with the context it interrupts; an exchange on the lock; a release. */
  datatype Event = Interrupt(cpu: nat, ctx: int) | Exchange(cpu: nat) | Release(cpu: nat)

  /** The scan of thread-os.c:49-51: the first task after i, around the ring, whose number is cpu modulo n. */
  function Scan(T: nat, n: nat, cpu: nat, i: nat, fuel: nat): (r: Option<nat>)
    requires T > 0 && n > 0
    ensures r.Some? ==> r.value < T && r.value % n == cpu
    decreases fuel
  {
    var j := (i + 1) % T;
    if j % n == cpu then Some(j)
    else if fuel == 0 then None
    else Scan(T, n, cpu, j, fuel - 1)
  }

  /** Where the scan ends: n tasks further on, or at the CPU's first task when the ring wraps. */
  function NextTask(T: nat, n: nat, cpu: nat, i: nat): nat {
    if i + n < T then i + n else cpu
  }

  lemma Residue(n: nat, i: nat, k: nat)
    requires n > 0 && 0 < k < n
    ensures (i + k) % n != i % n
  {
    var q, r := i / n, i % n;
    if r + k < n {
      MulDivMod(i + k, n, q, r + k);
    } else {
      MulDivMod(i + k, n, q + 1, r + k - n);
    }
  }

  lemma SameResidue(n: nat, i: nat)
    requires n > 0
    ensures (i + n) % n == i % n
  {
    MulDivMod(i + n, n, i / n + 1, i % n);
  }

  /** From k places past i (0 <= k < n) the scan goes on to i + n, or around to cpu. */
  lemma {:induction false} ScanUp(T: nat, n: nat, cpu: nat, i: nat, k: nat, fuel: nat)
    requires 0 < n <= T && cpu < n && i < T && i % n == cpu && k < n && i + k < T
    requires fuel >= (if i + n < T then n - 1 - k else T - 1 - i - k + cpu)
    ensures Scan(T, n, cpu, i + k, fuel) == Some(NextTask(T, n, cpu, i))
    decreases n - k
  {
    if i + k + 1 < T {
      MulDivMod(i + k + 1, T, 0, i + k + 1);
      if k + 1 == n {
        SameResidue(n, i);
      } else {
        Residue(n, i, k + 1);
        ScanUp(T, n, cpu, i, k + 1, fuel - 1);
      }
    } else {
      MulDivMod(i + k + 1, T, 1, 0);
      MulDivMod(0, n, 0, 0);
      if cpu > 0 {
        ScanFromZero(T, n, cpu, 0, fuel - 1);
      }
    }
  }

  lemma {:induction false} ScanFromZero(T: nat, n: nat, cpu: nat, j: nat, fuel: nat)
    requires j < cpu < n && cpu < T && fuel + 1 >= cpu - j
    ensures Scan(T, n, cpu, j, fuel) == Some(cpu)
    decreases cpu - j
  {
    MulDivMod(j + 1, T, 0, j + 1);
    MulDivMod(j + 1, n, 0, j + 1);
    if j + 1 < cpu {
      ScanFromZero(T, n, cpu, j + 1, fuel - 1);
    }
  }

  /** A CPU whose number no task has never finds one, however long it looks. */
  lemma {:induction false} ScanFails(T: nat, n: nat, cpu: nat, i: nat, fuel: nat)
    requires 0 < T <= cpu < n
    ensures Scan(T, n, cpu, i, fuel) == None
    decreases fuel
  {
    MulDivMod((i + 1) % T, n, 0, (i + 1) % T);
    if fuel > 0 {
      ScanFails(T, n, cpu, (i + 1) % T, fuel - 1);
    }
  }

  /** A CPU with a task of its own finds one, wherever its scan begins. */
  lemma {:induction false} ScanAnywhere(T: nat, n: nat, cpu: nat, i: nat, fuel: nat)
    requires cpu < n && cpu < T && i < T && fuel >= T - 1 - i + cpu
    ensures Scan(T, n, cpu, i, fuel).Some?
    decreases T - i
  {
    if i + 1 < T {
      MulDivMod(i + 1, T, 0, i + 1);
      if (i + 1) % n != cpu {
        ScanAnywhere(T, n, cpu, i + 1, fuel - 1);
      }
    } else {
      MulDivMod(i + 1, T, 1, 0);
      MulDivMod(0, n, 0, 0);
      if cpu > 0 {
        ScanFromZero(T, n, cpu, 0, fuel - 1);
      }
    }
  }

  ghost predicate Ends(T: nat, n: nat, cpu: nat, i: nat)
    requires T > 0 && n > 0
  {
    exists fuel: nat :: Scan(T, n, cpu, i, fuel).Some?
  }

  /** The loop of thread-os.c:49-51 ends exactly when there is a task of the CPU's own number. */
  lemma ScanEnds(T: nat, n: nat, cpu: nat, i: nat)
    requires cpu < n && i < T
    ensures Ends(T, n, cpu, i) <==> cpu < T
  {
    if cpu >= T {
      forall fuel: nat
        ensures Scan(T, n, cpu, i, fuel) == None
      {
        ScanFails(T, n, cpu, i, fuel);
      }
    } else {
      ScanAnywhere(T, n, cpu, i, 2 * T);
    }
  }

  // ---------------------------------------------------------------- the system

  /** At start no CPU has a task, and nothing is locked. */
  ghost predicate Start(T: nat, n: nat, s: System) {
    && 0 < n <= T && |s.current| == n && |s.context| == T && |s.phase| == T && s.locked == 0
    && (forall c | 0 <= c < n :: s.current[c] == None) && forall t | 0 <= t < T :: s.phase[t] == Outside
  }

  ghost predicate Sound(T: nat, n: nat, s: System) {
    && 0 < n <= T && |s.current| == n && |s.context| == T && |s.phase| == T
    && (forall c | 0 <= c < n && s.current[c].Some? :: s.current[c].value < T && s.current[c].value % n == c)
    && (s.locked == 0 || s.locked == 1)
    && (forall t, u | 0 <= t < u < T :: !(s.phase[t] == Inside && s.phase[u] == Inside))
    && (s.locked == 0 <==> forall t | 0 <= t < T :: s.phase[t] == Outside)
  }

  /** thread-os.c:45-53: the running task's context is saved, the next task of this CPU becomes current. */
  function OnInterrupt(T: nat, n: nat, s: System, cpu: nat, ctx: int): System
    requires Sound(T, n, s) && cpu < n
  {
    var i := if s.current[cpu].None? then 0 else s.current[cpu].value;
    ScanAnywhere(T, n, cpu, i, 2 * T);
    s.(current := s.current[cpu := Scan(T, n, cpu, i, 2 * T)],
       context := if s.current[cpu].None? then s.context else s.context[i := ctx])
  }

  /** A task acts only while it is current on a CPU; it releases only what it has acquired. */
  ghost predicate Enabled(T: nat, n: nat, s: System, e: Event)
    requires Sound(T, n, s)
  {
    e.cpu < n && match e
                 case Interrupt(cpu, ctx) => true
                 case Exchange(cpu) => s.current[cpu].Some? && s.phase[s.current[cpu].value] == Outside
                 case Release(cpu) => s.current[cpu].Some? && s.phase[s.current[cpu].value] == Inside
  }

  /** thread-os.c:23-24: the exchange returns the old value; only 0 lets the task in. */
  ghost function Apply(T: nat, n: nat, s: System, e: Event): System
    requires Sound(T, n, s) && Enabled(T, n, s, e)
  {
    match e
    case Interrupt(cpu, ctx) => OnInterrupt(T, n, s, cpu, ctx)
    case Exchange(cpu) =>
      s.(locked := 1, phase := if s.locked == 0 then s.phase[s.current[cpu].value := Inside] else s.phase)
    case Release(cpu) => s.(locked := 0, phase := s.phase[s.current[cpu].value := Outside])
  }

  lemma StartSound(T: nat, n: nat, s: System)
    requires Start(T, n, s)
    ensures Sound(T, n, s)
  {
  }

  /** Every step keeps: tasks stay on their own CPUs, at most one task is inside, and the lock says whether one is. */
  lemma ApplySound(T: nat, n: nat, s: System, e: Event)
    requires Sound(T, n, s) && Enabled(T, n, s, e)
    ensures Sound(T, n, Apply(T, n, s, e))
  {
    var r := Apply(T, n, s, e);
    match e {
      case Interrupt(cpu, ctx) =>
        var i := if s.current[cpu].None? then 0 else s.current[cpu].value;
        ScanAnywhere(T, n, cpu, i, 2 * T);
      case Exchange(cpu) =>
        assert s.locked == 0 ==> r.phase[s.current[cpu].value] == Inside;
      case Release(cpu) =>
        assert s.phase[s.current[cpu].value] == Inside;
    }
  }

  ghost predicate Run(T: nat, n: nat, s: System, es: seq<Event>)
    requires Sound(T, n, s)
    decreases |es|
  {
    es != [] ==> Enabled(T, n, s, es[0]) && (ApplySound(T, n, s, es[0]); Run(T, n, Apply(T, n, s, es[0]), es[1..]))
  }

  ghost function After(T: nat, n: nat, s: System, es: seq<Event>): (r: System)
    requires Sound(T, n, s) && Run(T, n, s, es)
    ensures Sound(T, n, r)
    decreases |es|
  {
    if es == [] then s else ApplySound(T, n, s, es[0]); After(T, n, Apply(T, n, s, es[0]), es[1..])
  }

  /** Whatever the interleaving: no task runs on two CPUs, and no two tasks are between lock and unlock. */
  lemma Exclusion(T: nat, n: nat, s: System, es: seq<Event>)
    requires Start(T, n, s) && (StartSound(T, n, s); Run(T, n, s, es))
    ensures (var r := After(T, n, s, es);
             && (forall c, d | 0 <= c < d < n && r.current[c].Some? && r.current[d].Some? ::
                 r.current[c] != r.current[d])
             && (forall t, u | 0 <= t < u < T :: !(r.phase[t] == Inside && r.phase[u] == Inside)))
  {
    var r := After(T, n, s, es);
    forall c, d | 0 <= c < d < n && r.current[c].Some? && r.current[d].Some?
      ensures r.current[c] != r.current[d]
    {
      assert r.current[c].value % n == c;
    }
  }

  // ---------------------------------------------------------------- contexts

  /** What the event saves: the interrupted task and its context. */
  ghost function Saved(T: nat, n: nat, s: System, e: Event): seq<(nat, int)>
    requires Sound(T, n, s) && Enabled(T, n, s, e)
  {
    if e.Interrupt? && s.current[e.cpu].Some? then [(s.current[e.cpu].value, e.ctx)] else []
  }

  ghost function Saves(T: nat, n: nat, s: System, es: seq<Event>): seq<(nat, int)>
    requires Sound(T, n, s) && Run(T, n, s, es)
    decreases |es|
  {
    if es == [] then []
    else ApplySound(T, n, s, es[0]); Saved(T, n, s, es[0]) + Saves(T, n, Apply(T, n, s, es[0]), es[1..])
  }

  /** The newest context saved for task t, or the one it had to begin with. */
  function Newest(log: seq<(nat, int)>, t: nat, initial: int): int {
    if log == [] then initial
    else if log[|log| - 1].0 == t then log[|log| - 1].1
    else Newest(log[..|log| - 1], t, initial)
  }

  lemma {:induction false} NewestSplit(a: seq<(nat, int)>, b: seq<(nat, int)>, t: nat, initial: int)
    ensures Newest(a + b, t, initial) == Newest(b, t, Newest(a, t, initial))
    decreases |b|
  {
    if b == [] {
      assert a + b == a;
    } else {
      assert (a + b)[..|a + b| - 1] == a + b[..|b| - 1];
      NewestSplit(a, b[..|b| - 1], t, initial);
    }
  }

  lemma StepContext(T: nat, n: nat, s: System, e: Event, t: nat)
    requires Sound(T, n, s) && Enabled(T, n, s, e) && t < T
    ensures |Apply(T, n, s, e).context| == T
    ensures Apply(T, n, s, e).context[t] == Newest(Saved(T, n, s, e), t, s.context[t])
  {
    hide Scan;
    var log := Saved(T, n, s, e);
    if log != [] {
      assert log[..0] == [];
    }
  }

  /** Every task's context is the one last saved for it, whatever the other CPUs have done meanwhile. */
  lemma {:induction false} ResumesNewest(T: nat, n: nat, s: System, es: seq<Event>, t: nat)
    requires Sound(T, n, s) && Run(T, n, s, es) && t < T && |s.context| == T && |After(T, n, s, es).context| == T
    ensures After(T, n, s, es).context[t] == Newest(Saves(T, n, s, es), t, s.context[t])
    decreases |es|
  {
    hide Sound, Enabled, Apply, Saved, Newest;
    if es == [] {
      EmptyLog(t, s.context[t]);
    } else {
      var e := es[0];
      ApplySound(T, n, s, e);
      var s1 := Apply(T, n, s, e);
      StepContext(T, n, s, e, t);
      ResumesNewest(T, n, s1, es[1..], t);
      NewestSplit(Saved(T, n, s, e), Saves(T, n, s1, es[1..]), t, s.context[t]);
    }
  }

  lemma EmptyLog(t: nat, initial: int)
    ensures Newest([], t, initial) == initial
  {
  }

  // ---------------------------------------------------------------- fairness

  /** The k-th task of this CPU after task i. */
  function Later(T: nat, n: nat, cpu: nat, i: nat, k: nat): nat {
    if k == 0 then i else NextTask(T, n, cpu, Later(T, n, cpu, i, k - 1))
  }

  /** How many tasks a CPU has. */
  function Share(T: nat, n: nat, cpu: nat): nat
    requires cpu < n <= T
  {
    (T - 1 - cpu) / n + 1
  }

  lemma ShareBounds(T: nat, n: nat, cpu: nat, a: nat)
    requires cpu < n <= T
    ensures cpu + n * a < T <==> a < Share(T, n, cpu)
  {
    var m, r := (T - 1 - cpu) / n, (T - 1 - cpu) % n;
    assert T - 1 - cpu == m * n + r;
    if a <= m {
      MulMono(a, m, n);
    } else {
      MulMono(m + 1, a, n);
      assert (m + 1) * n == m * n + n;
    }
  }

  /** The a-th task of a CPU. */
  function Turn(n: nat, cpu: nat, a: nat): nat {
    cpu + n * a
  }

  lemma NextInTurn(T: nat, n: nat, cpu: nat, a: nat)
    requires cpu < n <= T && a < Share(T, n, cpu)
    ensures NextTask(T, n, cpu, Turn(n, cpu, a)) == Turn(n, cpu, if a + 1 < Share(T, n, cpu) then a + 1 else 0)
  {
    hide Share;
    ShareBounds(T, n, cpu, a + 1);
    assert n * (a + 1) == n * a + n;
  }

  /** The tasks of a CPU are taken in turn. */
  lemma {:induction false} LaterIs(T: nat, n: nat, cpu: nat, a: nat, k: nat)
    requires cpu < n <= T && a < Share(T, n, cpu)
    ensures Later(T, n, cpu, Turn(n, cpu, a), k) == Turn(n, cpu, (a + k) % Share(T, n, cpu))
    decreases k
  {
    hide Share, NextTask, Turn;
    var m := Share(T, n, cpu);
    if k == 0 {
      MulDivMod(a, m, 0, a);
    } else {
      LaterIs(T, n, cpu, a, k - 1);
      StepModulo(a + k - 1, m);
      NextInTurn(T, n, cpu, (a + k - 1) % m);
    }
  }

  lemma StepModulo(x: nat, m: nat)
    requires m > 0
    ensures (x + 1) % m == if x % m + 1 < m then x % m + 1 else 0
  {
    if x % m + 1 < m {
      MulDivMod(x + 1, m, x / m, x % m + 1);
    } else {
      MulDivMod(x + 1, m, x / m + 1, 0);
    }
  }

  /** Each task of the CPU comes up within one round of its tasks. */
  lemma WithinRound(T: nat, n: nat, cpu: nat, i: nat, u: nat) returns (k: nat)
    requires cpu < n <= T && i < T && u < T && i % n == cpu && u % n == cpu
    ensures 1 <= k <= Share(T, n, cpu) && Later(T, n, cpu, i, k) == u
  {
    hide Share, Later, Turn;
    var m := Share(T, n, cpu);
    var a := InTurn(T, n, cpu, i);
    var b := InTurn(T, n, cpu, u);
    k := if a < b then b - a else m - a + b;
    LaterIs(T, n, cpu, a, k);
    if a < b {
      MulDivMod(b, m, 0, b);
    } else {
      MulDivMod(m + b, m, 1, b);
    }
  }

  lemma InTurn(T: nat, n: nat, cpu: nat, i: nat) returns (a: nat)
    requires cpu < n <= T && i < T && i % n == cpu
    ensures a < Share(T, n, cpu) && i == Turn(n, cpu, a)
  {
    hide Share;
    a := i / n;
    ShareBounds(T, n, cpu, a);
  }

  function Interrupts(es: seq<Event>, cpu: nat): nat {
    if es == [] then 0 else (if es[0].Interrupt? && es[0].cpu == cpu then 1 else 0) + Interrupts(es[1..], cpu)
  }

  /** The task on a CPU depends on that CPU's interrupts only. */
  lemma {:induction false} CurrentAfter(T: nat, n: nat, s: System, es: seq<Event>, cpu: nat, i: nat)
    requires Sound(T, n, s) && Run(T, n, s, es) && cpu < n && s.current[cpu] == Some(i)
    ensures After(T, n, s, es).current[cpu] == Some(Later(T, n, cpu, i, Interrupts(es, cpu)))
    decreases |es|
  {
    hide Scan;
    if es != [] {
      var e := es[0];
      ApplySound(T, n, s, e);
      var s1 := Apply(T, n, s, e);
      if e.Interrupt? && e.cpu == cpu {
        ScanNext(T, n, cpu, i);
        CurrentAfter(T, n, s1, es[1..], cpu, NextTask(T, n, cpu, i));
        LaterFront(T, n, cpu, i, Interrupts(es[1..], cpu));
      } else {
        CurrentAfter(T, n, s1, es[1..], cpu, i);
      }
    }
  }

  lemma ScanNext(T: nat, n: nat, cpu: nat, i: nat)
    requires 0 < n <= T && cpu < n && i < T && i % n == cpu
    ensures Scan(T, n, cpu, i, 2 * T) == Some(NextTask(T, n, cpu, i))
  {
    ScanUp(T, n, cpu, i, 0, 2 * T);
  }

  lemma {:induction false} LaterFront(T: nat, n: nat, cpu: nat, i: nat, k: nat)
    ensures Later(T, n, cpu, NextTask(T, n, cpu, i), k) == Later(T, n, cpu, i, k + 1)
    decreases k
  {
    if k > 0 {
      LaterFront(T, n, cpu, i, k - 1);
    }
  }

  lemma {:induction false} RunPrefix(T: nat, n: nat, s: System, es: seq<Event>, p: nat)
    requires Sound(T, n, s) && Run(T, n, s, es) && p <= |es|
    ensures Run(T, n, s, es[..p])
    decreases p
  {
    hide Sound, Enabled, Apply;
    if p > 0 {
      ApplySound(T, n, s, es[0]);
      assert es[..p][1..] == es[1..][..p - 1];
      RunPrefix(T, n, Apply(T, n, s, es[0]), es[1..], p - 1);
    }
  }

  /** Some prefix of the events holds exactly the first k interrupts of the CPU. */
  lemma {:induction false} PrefixWith(es: seq<Event>, cpu: nat, k: nat) returns (p: nat)
    requires k <= Interrupts(es, cpu)
    ensures p <= |es| && Interrupts(es[..p], cpu) == k
    decreases |es|
  {
    if k == 0 {
      p := 0;
    } else {
      var here := if es[0].Interrupt? && es[0].cpu == cpu then 1 else 0;
      var rest := PrefixWith(es[1..], cpu, k - here);
      p := rest + 1;
      assert es[..p][1..] == es[1..][..rest];
    }
  }

  /** Once a CPU has taken as many interrupts as it has tasks, each of its tasks has had its turn. */
  lemma EveryTaskServed(T: nat, n: nat, s: System, es: seq<Event>, cpu: nat, u: nat) returns (p: nat)
    requires Sound(T, n, s) && Run(T, n, s, es) && cpu < n && s.current[cpu].Some?
    requires u < T && u % n == cpu && Interrupts(es, cpu) >= Share(T, n, cpu)
    ensures p <= |es| && Run(T, n, s, es[..p]) && 1 <= Interrupts(es[..p], cpu) <= Share(T, n, cpu)
    ensures After(T, n, s, es[..p]).current[cpu] == Some(u)
  {
    hide Run, After, Share, Interrupts, Later;
    var i := s.current[cpu].value;
    var k := WithinRound(T, n, cpu, i, u);
    p := PrefixWith(es, cpu, k);
    RunPrefix(T, n, s, es, p);
    CurrentAfter(T, n, s, es[..p], cpu, i);
  }

  // ---------------------------------------------------------------- the handler as written

  /** The shared state of thread-os.c, with n CPUs and a ring of T tasks. */
  class Kernel {
    const T: nat
    const n: nat
    var currents: array<Option<nat>>
    var contexts: array<int>
    var locked: int
    ghost var phase: seq<Phase>

    ghost function State(): System
      reads this, currents, contexts
    {
      System(currents[..], contexts[..], locked, phase)
    }

    ghost predicate Valid()
      reads this, currents, contexts
    {
      Sound(T, n, State())
    }

    /** thread-os.c:60-70: the ring is the array; no CPU has a task yet. */
    constructor (tasks: nat, cpus: nat, fresh0: seq<int>)
      requires 0 < cpus <= tasks && |fresh0| == tasks
      ensures T == tasks && n == cpus && Valid() && Start(tasks, cpus, State()) && contexts[..] == fresh0
      ensures fresh(currents) && fresh(contexts)
    {
      T, n := tasks, cpus;
      currents := new Option<nat>[cpus](_ => None);
      contexts := new int[tasks](k requires 0 <= k < |fresh0| => fresh0[k]);
      locked := 0;
      phase := seq(tasks, _ => Outside);
      new;
      assert contexts[..] == fresh0;
    }

    /** thread-os.c:49-51: current moves along the ring, in place, until it reaches a task of this CPU. */
    method Advance(cpu: nat)
      requires currents.Length == n && cpu < n <= T && currents[cpu].Some? && currents[cpu].value < T
      modifies currents
      ensures currents[..] == old(currents[..])[cpu := Scan(T, n, cpu, old(currents[cpu].value), 2 * T)]
      ensures currents[cpu].Some?
    {
      ghost var i, was := currents[cpu].value, currents[..];
      ghost var fuel: nat := 2 * T;
      ScanAnywhere(T, n, cpu, i, 2 * T);
      while true
        invariant currents[cpu].Some? && currents[cpu].value < T
        invariant currents[..] == was[cpu := currents[cpu]]
        invariant Scan(T, n, cpu, currents[cpu].value, fuel) == Scan(T, n, cpu, i, 2 * T)
        decreases fuel
      {
        currents[cpu] := Some((currents[cpu].value + 1) % T);
        if currents[cpu].value % n == cpu {
          break;
        }
        fuel := fuel - 1;
      }
    }

    /** thread-os.c:45-53: the step of the system, statement by statement. */
    method OnInterrupt(cpu: nat, ctx: int) returns (resumed: int)
      requires Valid() && cpu < n
      modifies currents, contexts
      ensures Valid() && State() == Apply(T, n, old(State()), Interrupt(cpu, ctx))
      ensures currents[cpu].Some? && currents[cpu].value < T && resumed == contexts[currents[cpu].value]
    {
      hide Sound, Scan, Apply;
      ghost var s := State();
      InterruptStep(T, n, s, cpu, ctx);
      ApplySound(T, n, s, Interrupt(cpu, ctx));
      if currents[cpu].None? {
        currents[cpu] := Some(0);
      } else {
        contexts[currents[cpu].value] := ctx;
      }
      ghost var i := currents[cpu].value;
      Advance(cpu);
      assert currents[..] == s.current[cpu := Scan(T, n, cpu, i, 2 * T)];
      assert contexts[..] == if s.current[cpu].None? then s.context else s.context[i := ctx];
      resumed := contexts[currents[cpu].value];
    }
  }

  lemma InterruptStep(T: nat, n: nat, s: System, cpu: nat, ctx: int)
    requires Sound(T, n, s) && cpu < n
    ensures 0 < n <= T && |s.current| == n && |s.context| == T && (s.current[cpu].Some? ==> s.current[cpu].value < T)
    ensures Enabled(T, n, s, Interrupt(cpu, ctx))
    ensures (var i := if s.current[cpu].None? then 0 else s.current[cpu].value;
             && Apply(T, n, s, Interrupt(cpu, ctx))
                == System(s.current[cpu := Scan(T, n, cpu, i, 2 * T)],
                          if s.current[cpu].None? then s.context else s.context[i := ctx], s.locked, s.phase)
             && (Scan(T, n, cpu, i, 2 * T).Some? ==> Scan(T, n, cpu, i, 2 * T).value < T))
  {
    hide Scan;
  }
}
