/** Ranks that talk over one FIFO queue per ordered pair: sends never block, a receive names its
    source and blocks until that queue has a message. The main theorem: if sends and receives match
    pair by pair, and every receive has a later phase than its send, then whatever the schedule,
    every run completes, each receive gets the message meant for it, and all queues end empty. */
module MessageNetwork {

  /** What a rank does, annotated with the data it should carry and a logical phase. */
  datatype Action<D> = Send(to: nat, data: D, phase: nat) | Recv(from: nat, data: D, phase: nat)

  datatype Stamped<D> = Stamped(data: D, phase: nat)

  type Program<D> = seq<Action<D>>

  /** The messages a program sends to r, in order. */
  function SendsTo<D>(p: Program<D>, r: nat): seq<Stamped<D>> {
    if p == [] then []
    else
      SendsTo(p[..|p| - 1], r) +
      var a := p[|p| - 1];
      if a.Send? && a.to == r then [Stamped(a.data, a.phase)] else []
  }

  /** The messages a program expects from s, in order. */
  function RecvsFrom<D>(p: Program<D>, s: nat): seq<Stamped<D>> {
    if p == [] then []
    else
      RecvsFrom(p[..|p| - 1], s) +
      var a := p[|p| - 1];
      if a.Recv? && a.from == s then [Stamped(a.data, a.phase)] else []
  }

  /** Everything a program expects to receive, in order. */
  function Received<D>(p: Program<D>): seq<D> {
    if p == [] then []
    else Received(p[..|p| - 1]) + var a := p[|p| - 1]; if a.Recv? then [a.data] else []
  }

  /** The two ends agree message by message, each sent in an earlier phase than it is received. */
  predicate Meets<D(==)>(sent: seq<Stamped<D>>, expected: seq<Stamped<D>>) {
    && |sent| == |expected|
    && forall k :: 0 <= k < |sent| ==> sent[k].data == expected[k].data && sent[k].phase < expected[k].phase
  }

  predicate Ordered<D>(p: Program<D>) {
    forall i, j :: 0 <= i < j < |p| ==> p[i].phase <= p[j].phase
  }

  predicate InRange<D>(p: Program<D>, n: nat) {
    forall i :: 0 <= i < |p| ==> (if p[i].Send? then p[i].to else p[i].from) < n
  }

  predicate PairMatched<D(==)>(progs: seq<Program<D>>, s: nat, r: nat)
    requires s < |progs| && r < |progs|
  {
    Meets(SendsTo(progs[s], r), RecvsFrom(progs[r], s))
  }

  predicate RankOk<D>(progs: seq<Program<D>>, r: nat)
    requires r < |progs|
  {
    Ordered(progs[r]) && InRange(progs[r], |progs|)
  }

  predicate WellMatched<D(==)>(progs: seq<Program<D>>) {
    && (forall r :: 0 <= r < |progs| ==> RankOk(progs, r))
    && forall s, r :: 0 <= s < |progs| && 0 <= r < |progs| ==> PairMatched(progs, s, r)
  }

  /** What rank r actually sends at step pc, given all it has received so far. */
  type Behaviour<!D> = (nat, nat, seq<D>) -> D

  ghost predicate SendsRight<D>(progs: seq<Program<D>>, emit: Behaviour<D>, r: nat, pc: nat)
    requires r < |progs| && pc < |progs[r]|
  {
    progs[r][pc].Send? ==> emit(r, pc, Received(progs[r][..pc])) == progs[r][pc].data
  }

  /** A rank that has received what the annotations say sends what the annotations say. */
  ghost predicate LocallyConsistent<D>(progs: seq<Program<D>>, emit: Behaviour<D>) {
    forall r, pc :: 0 <= r < |progs| && 0 <= pc < |progs[r]| ==> SendsRight(progs, emit, r, pc)
  }

  // ---------- runs ----------

  datatype State<D> = State(pc: seq<nat>, got: seq<seq<D>>, queue: map<(nat, nat), seq<D>>)

  predicate Shaped<D>(progs: seq<Program<D>>, st: State<D>) {
    && |st.pc| == |st.got| == |progs|
    && (forall r :: 0 <= r < |progs| ==> st.pc[r] <= |progs[r]|)
    && forall s: nat, r: nat :: s < |progs| && r < |progs| ==> (s, r) in st.queue
  }

  function Start<D>(progs: seq<Program<D>>): State<D> {
    State(seq(|progs|, i => 0), seq(|progs|, i => []),
          map s: nat, r: nat | s < |progs| && r < |progs| :: (s, r) := [])
  }

  predicate Enabled<D>(progs: seq<Program<D>>, st: State<D>, r: nat)
    requires Shaped(progs, st)
  {
    && r < |progs| && st.pc[r] < |progs[r]|
    && var a := progs[r][st.pc[r]];
       if a.Send? then a.to < |progs| else a.from < |progs| && st.queue[(a.from, r)] != []
  }

  /** Rank r takes its next step. */
  function Step<D>(progs: seq<Program<D>>, emit: Behaviour<D>, st: State<D>, r: nat): State<D>
    requires Shaped(progs, st) && Enabled(progs, st, r)
  {
    var a := progs[r][st.pc[r]];
    if a.Send? then
      st.(pc := st.pc[r := st.pc[r] + 1],
          queue := st.queue[(r, a.to) := st.queue[(r, a.to)] + [emit(r, st.pc[r], st.got[r])]])
    else
      var q := st.queue[(a.from, r)];
      st.(pc := st.pc[r := st.pc[r] + 1],
          got := st.got[r := st.got[r] + [q[0]]],
          queue := st.queue[(a.from, r) := q[1..]])
  }

  /** A queue holds what has been sent and not yet taken. */
  ghost predicate Holds<D>(sent: seq<Stamped<D>>, taken: nat, q: seq<D>) {
    && taken + |q| == |sent|
    && forall k :: 0 <= k < |q| ==> q[k] == sent[taken + k].data
  }

  ghost predicate QueueOk<D>(progs: seq<Program<D>>, st: State<D>, s: nat, r: nat)
    requires Shaped(progs, st) && s < |progs| && r < |progs|
  {
    Holds(SendsTo(progs[s][..st.pc[s]], r), |RecvsFrom(progs[r][..st.pc[r]], s)|, st.queue[(s, r)])
  }

  ghost predicate Inv<D>(progs: seq<Program<D>>, st: State<D>) {
    && Shaped(progs, st)
    && (forall r :: 0 <= r < |progs| ==> st.got[r] == Received(progs[r][..st.pc[r]]))
    && forall s, r :: 0 <= s < |progs| && 0 <= r < |progs| ==> QueueOk(progs, st, s, r)
  }

  lemma StartInv<D>(progs: seq<Program<D>>)
    ensures Inv(progs, Start(progs))
  {
    forall r | 0 <= r < |progs| ensures progs[r][..0] == [] {}
    forall s, r | 0 <= s < |progs| && 0 <= r < |progs| ensures QueueOk(progs, Start(progs), s, r) {
      assert progs[s][..0] == [] && progs[r][..0] == [];
    }
  }

  lemma {:induction false} PrefixProjections<D>(p: Program<D>, i: nat, x: nat)
    requires i <= |p|
    ensures SendsTo(p[..i], x) <= SendsTo(p, x)
    ensures RecvsFrom(p[..i], x) <= RecvsFrom(p, x)
    decreases |p|
  {
    if i < |p| {
      PrefixProjections(p[..|p| - 1], i, x);
      assert p[..|p| - 1][..i] == p[..i];
    } else {
      assert p[..i] == p;
    }
  }

  lemma Extend<D>(p: Program<D>, i: nat, x: nat)
    requires i < |p|
    ensures var a := p[i];
            && SendsTo(p[..i + 1], x) ==
                 SendsTo(p[..i], x) + (if a.Send? && a.to == x then [Stamped(a.data, a.phase)] else [])
            && RecvsFrom(p[..i + 1], x) ==
                 RecvsFrom(p[..i], x) + (if a.Recv? && a.from == x then [Stamped(a.data, a.phase)] else [])
            && Received(p[..i + 1]) == Received(p[..i]) + (if a.Recv? then [a.data] else [])
  {
    var q := p[..i + 1];
    assert q[..|q| - 1] == p[..i] && q[|q| - 1] == p[i];
  }

  /** The head of a queue is exactly the message the receive expects. */
  lemma HeadIsExpected<D>(progs: seq<Program<D>>, st: State<D>, r: nat)
    requires WellMatched(progs) && Inv(progs, st) && Enabled(progs, st, r) && progs[r][st.pc[r]].Recv?
    ensures var a := progs[r][st.pc[r]]; st.queue[(a.from, r)][0] == a.data
  {
    var pc := st.pc[r];
    var a := progs[r][pc];
    var s := a.from;
    Extend(progs[r], pc, s);
    PrefixProjections(progs[r], pc + 1, s);
    PrefixProjections(progs[s], st.pc[s], r);
    assert QueueOk(progs, st, s, r);
    assert PairMatched(progs, s, r);
    var k := |RecvsFrom(progs[r][..pc], s)|;
    assert RecvsFrom(progs[r], s)[k].data == a.data;
    assert st.queue[(s, r)][0] == SendsTo(progs[s], r)[k].data;
  }

  lemma SendKeepsQueues<D>(progs: seq<Program<D>>, emit: Behaviour<D>, st: State<D>, t: nat, s: nat, r: nat)
    requires Shaped(progs, st) && s < |progs| && r < |progs| && QueueOk(progs, st, s, r)
    requires Enabled(progs, st, t) && progs[t][st.pc[t]].Send?
    requires emit(t, st.pc[t], st.got[t]) == progs[t][st.pc[t]].data
    ensures QueueOk(progs, Step(progs, emit, st, t), s, r)
  {
    Extend(progs[t], st.pc[t], s);
    Extend(progs[t], st.pc[t], r);
  }

  lemma RecvKeepsQueues<D>(progs: seq<Program<D>>, emit: Behaviour<D>, st: State<D>, t: nat, s: nat, r: nat)
    requires Shaped(progs, st) && s < |progs| && r < |progs| && QueueOk(progs, st, s, r)
    requires Enabled(progs, st, t) && progs[t][st.pc[t]].Recv?
    ensures QueueOk(progs, Step(progs, emit, st, t), s, r)
  {
    Extend(progs[t], st.pc[t], s);
    Extend(progs[t], st.pc[t], r);
  }

  lemma StepKeepsHistory<D>(progs: seq<Program<D>>, emit: Behaviour<D>, st: State<D>, t: nat, r: nat)
    requires Shaped(progs, st) && Enabled(progs, st, t) && r < |progs|
    requires st.got[r] == Received(progs[r][..st.pc[r]])
    requires var a := progs[t][st.pc[t]]; a.Recv? ==> st.queue[(a.from, t)][0] == a.data
    ensures var st' := Step(progs, emit, st, t); st'.got[r] == Received(progs[r][..st'.pc[r]])
  {
    Extend(progs[t], st.pc[t], t);
  }

  lemma StepInv<D>(progs: seq<Program<D>>, emit: Behaviour<D>, st: State<D>, t: nat)
    requires WellMatched(progs) && LocallyConsistent(progs, emit) && Inv(progs, st)
    requires Enabled(progs, st, t)
    ensures Inv(progs, Step(progs, emit, st, t))
  {
    var st' := Step(progs, emit, st, t);
    var a := progs[t][st.pc[t]];
    if a.Recv? { HeadIsExpected(progs, st, t); }
    forall r | 0 <= r < |progs| ensures st'.got[r] == Received(progs[r][..st'.pc[r]]) {
      StepKeepsHistory(progs, emit, st, t, r);
    }
    forall s, r | 0 <= s < |progs| && 0 <= r < |progs| ensures QueueOk(progs, st', s, r) {
      if a.Send? {
        assert SendsRight(progs, emit, t, st.pc[t]);
        SendKeepsQueues(progs, emit, st, t, s, r);
      } else {
        RecvKeepsQueues(progs, emit, st, t, s, r);
      }
    }
  }

  // ---------- progress ----------

  /** The next message a program still owes to r. */
  lemma {:induction false} NextSend<D>(p: Program<D>, a: nat, r: nat) returns (i: nat)
    requires a <= |p| && |SendsTo(p[..a], r)| < |SendsTo(p, r)|
    ensures a <= i < |p| && p[i].Send? && p[i].to == r
    ensures SendsTo(p[..i], r) == SendsTo(p[..a], r)
    decreases |p| - a
  {
    assert p[..|p|] == p;
    Extend(p, a, r);
    if p[a].Send? && p[a].to == r { i := a; } else { i := NextSend(p, a + 1, r); }
  }

  /** If s owes r the message that r is waiting for, s has an action left with an earlier phase. */
  lemma OwesEarlier<D>(ps: Program<D>, i: nat, s: nat, pr: Program<D>, j: nat, r: nat)
    requires i <= |ps| && j < |pr| && Ordered(ps)
    requires pr[j].Recv? && pr[j].from == s && Meets(SendsTo(ps, r), RecvsFrom(pr, s))
    requires |SendsTo(ps[..i], r)| == |RecvsFrom(pr[..j], s)|
    ensures i < |ps| && ps[i].phase < pr[j].phase
  {
    Extend(pr, j, s);
    PrefixProjections(pr, j + 1, s);
    var k := |RecvsFrom(pr[..j], s)|;
    assert RecvsFrom(pr, s)[k].phase == pr[j].phase;
    var m := NextSend(ps, i, r);
    Extend(ps, m, r);
    PrefixProjections(ps, m + 1, r);
    assert SendsTo(ps, r)[k].phase == ps[m].phase;
  }

  /** A blocked receive points to a rank whose next action has an earlier phase. */
  lemma BlockedOnEarlier<D>(progs: seq<Program<D>>, st: State<D>, r: nat)
    requires WellMatched(progs) && Inv(progs, st)
    requires r < |progs| && st.pc[r] < |progs[r]| && !Enabled(progs, st, r)
    ensures var a := progs[r][st.pc[r]];
            && a.Recv? && a.from < |progs| && st.pc[a.from] < |progs[a.from]|
            && progs[a.from][st.pc[a.from]].phase < a.phase
  {
    var a := progs[r][st.pc[r]];
    assert RankOk(progs, r);
    assert RankOk(progs, a.from) && QueueOk(progs, st, a.from, r) && PairMatched(progs, a.from, r);
    OwesEarlier(progs[a.from], st.pc[a.from], a.from, progs[r], st.pc[r], r);
  }

  /** Deadlock freedom: while some rank is unfinished, some rank can step. */
  lemma {:induction false} Progress<D>(progs: seq<Program<D>>, st: State<D>, r: nat) returns (t: nat)
    requires WellMatched(progs) && Inv(progs, st)
    requires r < |progs| && st.pc[r] < |progs[r]|
    ensures Enabled(progs, st, t)
    decreases progs[r][st.pc[r]].phase
  {
    if Enabled(progs, st, r) {
      t := r;
    } else {
      BlockedOnEarlier(progs, st, r);
      t := Progress(progs, st, progs[r][st.pc[r]].from);
    }
  }

  // ---------- whole runs ----------

  /** `schedule` names the rank that steps at each point; every step is one the rank could take. */
  ghost predicate IsRun<D>(progs: seq<Program<D>>, emit: Behaviour<D>, schedule: seq<nat>, states: seq<State<D>>) {
    && |states| == |schedule| + 1
    && states[0] == Start(progs)
    && forall i :: 0 <= i < |schedule| ==>
         && Shaped(progs, states[i]) && Enabled(progs, states[i], schedule[i])
         && states[i + 1] == Step(progs, emit, states[i], schedule[i])
  }

  lemma {:induction false} RunInv<D>(progs: seq<Program<D>>, emit: Behaviour<D>, schedule: seq<nat>,
                                     states: seq<State<D>>, i: nat)
    requires WellMatched(progs) && LocallyConsistent(progs, emit)
    requires IsRun(progs, emit, schedule, states) && i < |states|
    ensures Inv(progs, states[i]) && Steps(states[i].pc) == i
  {
    if i == 0 {
      StartInv(progs);
      NoSteps(|progs|);
    } else {
      RunInv(progs, emit, schedule, states, i - 1);
      StepInv(progs, emit, states[i - 1], schedule[i - 1]);
      OneMoreStep(states[i - 1].pc, schedule[i - 1]);
    }
  }

  function Steps(pc: seq<nat>): nat {
    if pc == [] then 0 else pc[0] + Steps(pc[1..])
  }

  lemma {:induction false} NoSteps(n: nat)
    ensures Steps(seq(n, i => 0)) == 0
  {
    if n > 0 {
      NoSteps(n - 1);
      assert seq(n, i => 0)[1..] == seq(n - 1, i => 0);
    }
  }

  lemma {:induction false} OneMoreStep(pc: seq<nat>, r: nat)
    requires r < |pc|
    ensures Steps(pc[r := pc[r] + 1]) == Steps(pc) + 1
  {
    if r == 0 {
      assert pc[r := pc[r] + 1][1..] == pc[1..];
    } else {
      assert pc[r := pc[r] + 1][1..] == pc[1..][r - 1 := pc[r] + 1];
      OneMoreStep(pc[1..], r - 1);
    }
  }

  function Lengths<D>(progs: seq<Program<D>>): (r: seq<nat>)
    ensures |r| == |progs| && forall i :: 0 <= i < |r| ==> r[i] == |progs[i]|
  {
    seq(|progs|, i requires 0 <= i < |progs| => |progs[i]|)
  }

  lemma {:induction false} StepsBelow(a: seq<nat>, b: seq<nat>)
    requires |a| == |b| && forall i :: 0 <= i < |a| ==> a[i] <= b[i]
    ensures Steps(a) <= Steps(b)
  {
    if a != [] { StepsBelow(a[1..], b[1..]); }
  }

  /** Every rank has run to its end, received exactly what was meant for it, and no message is left over. */
  ghost predicate Completed<D>(progs: seq<Program<D>>, st: State<D>) {
    && Shaped(progs, st)
    && (forall r :: 0 <= r < |progs| ==> st.pc[r] == |progs[r]| && st.got[r] == Received(progs[r]))
    && forall s: nat, r: nat :: s < |progs| && r < |progs| ==> st.queue[(s, r)] == []
  }

  lemma FinishedIsCompleted<D>(progs: seq<Program<D>>, st: State<D>)
    requires WellMatched(progs) && Inv(progs, st)
    requires forall r :: 0 <= r < |progs| ==> st.pc[r] == |progs[r]|
    ensures Completed(progs, st)
  {
    forall r | 0 <= r < |progs| ensures progs[r][..st.pc[r]] == progs[r] {}
    forall s: nat, r: nat | s < |progs| && r < |progs| ensures st.queue[(s, r)] == [] {
      assert QueueOk(progs, st, s, r);
      assert PairMatched(progs, s, r);
      assert progs[s][..st.pc[s]] == progs[s] && progs[r][..st.pc[r]] == progs[r];
    }
  }

  /** No rank can take a step. */
  ghost predicate Stuck<D>(progs: seq<Program<D>>, st: State<D>)
    requires Shaped(progs, st)
  {
    forall t: nat :: !Enabled(progs, st, t)
  }

  lemma StuckIsCompleted<D>(progs: seq<Program<D>>, st: State<D>)
    requires WellMatched(progs) && Inv(progs, st) && Stuck(progs, st)
    ensures Completed(progs, st)
  {
    forall r | 0 <= r < |progs| ensures st.pc[r] == |progs[r]| {
      if st.pc[r] < |progs[r]| { var t := Progress(progs, st, r); }
    }
    FinishedIsCompleted(progs, st);
  }

  /** A run never exceeds the programs' length, every message received is the one expected, and a
      run that cannot go on has completed. */
  ghost predicate GoodRun<D>(progs: seq<Program<D>>, schedule: seq<nat>, last: State<D>) {
    && Shaped(progs, last)
    && |schedule| <= Steps(Lengths(progs))
    && (forall r :: 0 <= r < |progs| ==> last.got[r] == Received(progs[r][..last.pc[r]]))
    && (Stuck(progs, last) ==> Completed(progs, last))
  }

  /** The main theorem, for every run. (`== true` lets callers pass the premises on unexpanded.) */
  lemma RunsComplete<D>(progs: seq<Program<D>>, emit: Behaviour<D>, schedule: seq<nat>, states: seq<State<D>>)
    requires WellMatched(progs) == true && LocallyConsistent(progs, emit) == true
    requires IsRun(progs, emit, schedule, states) == true
    ensures GoodRun(progs, schedule, states[|schedule|]) == true
  {
    var last := states[|schedule|];
    RunInv(progs, emit, schedule, states, |schedule|);
    StepsBelow(last.pc, Lengths(progs));
    if Stuck(progs, last) { StuckIsCompleted(progs, last); }
  }
}
