/** Programs of collectives put together from parts: ranks that behave as one part asks, then as the next,
    behave as the whole asks. */
module MpiPrograms {
  import opened MessageNetwork
  import opened MpiCollectives

  // ---------- the same stages later on ----------

  ghost predicate AllValid<D>(w: World, stages: seq<Stage<D>>) {
    forall i :: 0 <= i < |stages| ==> ValidStage(w, stages[i])
  }

  /** The same actions, d phases later. */
  function Delayed<D>(p: Program<D>, d: nat): (q: Program<D>)
    ensures |q| == |p|
    ensures forall i :: 0 <= i < |q| ==> q[i] == p[i].(phase := p[i].phase + d)
  {
    seq(|p|, i requires 0 <= i < |p| => p[i].(phase := p[i].phase + d))
  }

  lemma {:induction false} ReceivedDelayed<D>(p: Program<D>, d: nat)
    ensures Received(Delayed(p, d)) == Received(p)
  {
    if p != [] {
      var k := |p| - 1;
      ReceivedDelayed(p[..k], d);
      assert Delayed(p, d)[..k] == Delayed(p[..k], d);
    }
  }

  lemma DelayedConcat<D>(p: Program<D>, q: Program<D>, d: nat)
    ensures Delayed(p + q, d) == Delayed(p, d) + Delayed(q, d)
  {
  }

  lemma DelayedOne<D>(a: Action<D>, d: nat)
    ensures Delayed([a], d) == [a.(phase := a.phase + d)]
  {
  }

  lemma BurstDelayed<D>(others: seq<nat>, data: seq<D>, phase: nat, d: nat)
    requires Bounded(others, |data|)
    ensures SendAll(others, data, phase + d) == Delayed(SendAll(others, data, phase), d)
    ensures RecvAll(others, data, phase + d) == Delayed(RecvAll(others, data, phase), d)
  {
  }

  lemma SpreadLeaderDelayed<D>(w: World, me: nat, root: nat, value: D, base: nat, d: nat)
    requires ValidWorld(w) && me < |w.hostOf| && root < |w.hostOf| && me != root && me == LeaderOf(w, me)
    ensures SpreadScript(w, me, root, value, base + d) == Delayed(SpreadScript(w, me, root, value, base), d)
  {
    hide Fan, LocalOthers, LeaderOf, Local;
    var values := Const(|w.hostOf|, value);
    var first := [Recv(root, value, base + 1)];
    DelayedOne(Recv(root, value, base + 1), d);
    if Local(w, me, root) {
      assert first + [] == first;
    } else {
      BurstDelayed(LocalOthers(w, me), values, base + 2, d);
      DelayedConcat(first, SendAll(LocalOthers(w, me), values, base + 2), d);
    }
  }

  lemma SpreadDelayed<D>(w: World, me: nat, root: nat, value: D, base: nat, d: nat)
    requires ValidWorld(w) && me < |w.hostOf| && root < |w.hostOf|
    ensures SpreadScript(w, me, root, value, base + d) == Delayed(SpreadScript(w, me, root, value, base), d)
  {
    hide Fan, LocalOthers, LeaderOf, Local, Const;
    var values := Const(|w.hostOf|, value);
    if me == root {
      BurstDelayed(Fan(w, root), values, base, d);
    } else if me == LeaderOf(w, me) {
      SpreadLeaderDelayed(w, me, root, value, base, d);
    } else {
      DelayedOne(Recv(if Local(w, me, root) then root else LeaderOf(w, me), value, base + 3), d);
    }
  }

  lemma ConvergeDelayed<D>(w: World, me: nat, root: nat, own: seq<D>, merged: seq<D>, due: seq<D>, base: nat, d: nat)
    requires ValidWorld(w) && me < |w.hostOf| && root < |w.hostOf| == |own| == |merged| == |due|
    ensures ConvergeScript(w, me, root, own, merged, due, base + d)
            == Delayed(ConvergeScript(w, me, root, own, merged, due, base), d)
  {
    hide Fan, LocalOthers, LeaderOf, Local;
    if me == root {
      BurstDelayed(Fan(w, root), due, base + 3, d);
    } else if me == LeaderOf(w, me) && !Local(w, me, root) {
      BurstDelayed(LocalOthers(w, me), own, base + 1, d);
      DelayedOne(Send(root, merged[me], base + 2), d);
      DelayedConcat(RecvAll(LocalOthers(w, me), own, base + 1), [Send(root, merged[me], base + 2)], d);
    } else {
      DelayedOne(Send(if Local(w, me, root) then root else LeaderOf(w, me), own[me], base), d);
    }
  }

  lemma ScriptDelayed<D>(w: World, me: nat, st: Stage<D>, base: nat, d: nat)
    requires ValidWorld(w) && me < |w.hostOf| && ValidStage(w, st)
    ensures Script(w, me, st, base + d) == Delayed(Script(w, me, st, base), d)
  {
    var n := |w.hostOf|;
    match st
    case Spread(root, value) => SpreadDelayed(w, me, root, value, base, d);
    case Converge(root, own, merged, due) => ConvergeDelayed(w, me, root, own, merged, due, base, d);
    case Deal(root, parts) => BurstDelayed(Others(n, root), parts, base, d);
    case Exchange(table) =>
      BurstDelayed(Others(n, me), table[me], base, d);
      BurstDelayed(Others(n, me), Column(table, me), base + 1, d);
      DelayedConcat(SendAll(Others(n, me), table[me], base), RecvAll(Others(n, me), Column(table, me), base + 1), d);
    case Join(value) => BurstDelayed(Others(n, 0), Const(n, value), base + 1, d);
  }

  lemma {:induction false} StagesDelayed<D>(w: World, me: nat, a: seq<Stage<D>>, b: seq<Stage<D>>, k: nat)
    requires ValidWorld(w) && me < |w.hostOf| && k <= |b| && AllValid(w, a) && AllValid(w, b) && AllValid(w, a + b)
    ensures StagesFrom(w, me, a + b, |a| + k) == Delayed(StagesFrom(w, me, b, k), 4 * |a|)
    decreases |b| - k
  {
    hide Script, ValidStage, ValidWorld;
    if k < |b| {
      assert (a + b)[|a| + k] == b[k];
      ScriptDelayed(w, me, b[k], 4 * k, 4 * |a|);
      StagesDelayed(w, me, a, b, k + 1);
      DelayedConcat(Script(w, me, b[k], 4 * k), StagesFrom(w, me, b, k + 1), 4 * |a|);
    }
  }

  // ---------- one program after another ----------

  /** Ranks that go on with `second` once they have run `progs`. */
  ghost function Then<D>(progs: seq<Program<D>>, first: Behaviour<D>, second: Behaviour<D>): Behaviour<D> {
    (r: nat, pc: nat, got: seq<D>) =>
      if r < |progs| && |progs[r]| <= pc && |Received(progs[r])| <= |got|
      then second(r, pc - |progs[r]|, got[|Received(progs[r])|..])
      else first(r, pc, got)
  }

  lemma ThenProgram<D>(w: World, me: nat, a: seq<Stage<D>>, b: seq<Stage<D>>)
    requires ValidWorld(w) && me < |w.hostOf| && AllValid(w, a) && AllValid(w, b) && AllValid(w, a + b)
    ensures StagesFrom(w, me, a + b, 0) == StagesFrom(w, me, a, 0) + Delayed(StagesFrom(w, me, b, 0), 4 * |a|)
    ensures Received(StagesFrom(w, me, a + b, 0))
            == Received(StagesFrom(w, me, a, 0)) + Received(StagesFrom(w, me, b, 0))
  {
    StagesSplit(w, me, a, b, 0);
    StagesDelayed(w, me, a, b, 0);
    ReceivedConcat(StagesFrom(w, me, a, 0), Delayed(StagesFrom(w, me, b, 0), 4 * |a|));
    ReceivedDelayed(StagesFrom(w, me, b, 0), 4 * |a|);
  }

  /** What has been received by the middle of the second program. */
  lemma ReceivedInSecond<D>(p: Program<D>, q: Program<D>, d: nat, pc: nat)
    requires |p| <= pc <= |p| + |q|
    ensures Received((p + Delayed(q, d))[..pc]) == Received(p) + Received(q[..pc - |p|])
  {
    var k := pc - |p|;
    assert (p + Delayed(q, d))[..pc] == p + Delayed(q[..k], d);
    ReceivedConcat(p, Delayed(q[..k], d));
    ReceivedDelayed(q[..k], d);
  }

  lemma ThenSendsRight<D>(w: World, a: seq<Stage<D>>, b: seq<Stage<D>>, first: Behaviour<D>, second: Behaviour<D>,
                          r: nat, pc: nat)
    requires ValidWorld(w) && r < |w.hostOf| && AllValid(w, a) && AllValid(w, b) && AllValid(w, a + b)
    requires LocallyConsistent(Programs(w, a), first) && LocallyConsistent(Programs(w, b), second)
    requires pc < |Programs(w, a + b)[r]|
    ensures SendsRight(Programs(w, a + b), Then(Programs(w, a), first, second), r, pc)
  {
    var p, q := StagesFrom(w, r, a, 0), StagesFrom(w, r, b, 0);
    ThenProgram(w, r, a, b);
    if pc < |p| {
      assert (p + Delayed(q, 4 * |a|))[..pc] == p[..pc];
      assert SendsRight(Programs(w, a), first, r, pc);
    } else {
      ReceivedInSecond(p, q, 4 * |a|, pc);
      assert SendsRight(Programs(w, b), second, r, pc - |p|);
    }
  }

  lemma ThenConsistent<D>(w: World, a: seq<Stage<D>>, b: seq<Stage<D>>, first: Behaviour<D>, second: Behaviour<D>)
    requires ValidWorld(w) && AllValid(w, a) && AllValid(w, b) && AllValid(w, a + b)
    requires LocallyConsistent(Programs(w, a), first) == true && LocallyConsistent(Programs(w, b), second) == true
    ensures LocallyConsistent(Programs(w, a + b), Then(Programs(w, a), first, second)) == true
  {
    var progs: seq<Program<D>> := Programs(w, a + b);
    forall r, pc | 0 <= r < |progs| && 0 <= pc < |progs[r]|
      ensures SendsRight(progs, Then(Programs(w, a), first, second), r, pc)
    {
      ThenSendsRight(w, a, b, first, second, r, pc);
    }
  }

  // ---------- a call in the middle of a program ----------

  /** The rest of a program: what is called before and after the collective, and what its ranks compute. */
  datatype Context<!D> = Context(before: seq<Stage<D>>, doBefore: Behaviour<D>, after: seq<Stage<D>>,
                                 doAfter: Behaviour<D>)

  ghost predicate GoodContext<D>(w: World, c: Context<D>) {
    && ValidWorld(w) && AllValid(w, c.before) && AllValid(w, c.after)
    && LocallyConsistent(Programs(w, c.before), c.doBefore)
    && LocallyConsistent(Programs(w, c.after), c.doAfter)
  }

  /** The program with the collective's stages in their place. */
  ghost function Whole<D>(w: World, c: Context<D>, mid: seq<Stage<D>>): (stages: seq<Stage<D>>)
    requires AllValid(w, c.before) && AllValid(w, mid) && AllValid(w, c.after)
    ensures AllValid(w, c.before + mid) && AllValid(w, stages)
  {
    c.before + mid + c.after
  }

  ghost function WholeDo<D>(w: World, c: Context<D>, mid: seq<Stage<D>>, doMid: Behaviour<D>): Behaviour<D>
    requires ValidWorld(w) && AllValid(w, c.before) && AllValid(w, mid) && AllValid(w, c.before + mid)
  {
    Then(Programs(w, c.before + mid), Then(Programs(w, c.before), c.doBefore, doMid), c.doAfter)
  }

  /** What rank r received while making the call in the middle. */
  ghost function MiddleOf<D>(w: World, c: Context<D>, mid: seq<Stage<D>>, r: nat, got: seq<D>): seq<D>
    requires ValidWorld(w) && r < |w.hostOf| && AllValid(w, c.before) && AllValid(w, mid)
  {
    var from := |Received(StagesFrom(w, r, c.before, 0))|;
    var to := from + |Received(StagesFrom(w, r, mid, 0))|;
    if to <= |got| then got[from..to] else []
  }

  ghost function Middle<D>(w: World, c: Context<D>, mid: seq<Stage<D>>, got: seq<seq<D>>): (s: seq<seq<D>>)
    requires ValidWorld(w) && |got| == |w.hostOf| && AllValid(w, c.before) && AllValid(w, mid)
    ensures |s| == |got| && forall r :: 0 <= r < |s| ==> s[r] == MiddleOf(w, c, mid, r, got[r])
  {
    seq(|got|, r requires 0 <= r < |got| => MiddleOf(w, c, mid, r, got[r]))
  }

  lemma MiddleReceived<D>(w: World, c: Context<D>, mid: seq<Stage<D>>, r: nat)
    requires ValidWorld(w) && r < |w.hostOf| && AllValid(w, c.before) && AllValid(w, mid) && AllValid(w, c.after)
    ensures MiddleOf(w, c, mid, r, Received(StagesFrom(w, r, Whole(w, c, mid), 0)))
            == Received(StagesFrom(w, r, mid, 0))
  {
    var stages := Whole(w, c, mid);
    ThenProgram(w, r, c.before, mid);
    ThenProgram(w, r, c.before + mid, c.after);
    var a, b := Received(StagesFrom(w, r, c.before, 0)), Received(StagesFrom(w, r, mid, 0));
    assert Received(StagesFrom(w, r, stages, 0)) == a + b + Received(StagesFrom(w, r, c.after, 0));
    assert (a + b + Received(StagesFrom(w, r, c.after, 0)))[|a|..|a| + |b|] == b;
  }

  lemma WholeConsistent<D>(w: World, c: Context<D>, mid: seq<Stage<D>>, doMid: Behaviour<D>)
    requires GoodContext(w, c) && AllValid(w, mid)
    requires LocallyConsistent(Programs(w, mid), doMid) == true
    ensures LocallyConsistent(Programs(w, Whole(w, c, mid)), WholeDo(w, c, mid, doMid)) == true
  {
    hide LocallyConsistent, ValidStage, ValidWorld;
    assert AllValid(w, Whole(w, c, mid));
    ThenConsistent(w, c.before, mid, c.doBefore, doMid);
    ThenConsistent(w, c.before + mid, c.after, Then(Programs(w, c.before), c.doBefore, doMid), c.doAfter);
  }

  /** Any run of the whole program that cannot go on has received in the middle what the middle sends. */
  lemma WholeRuns<D>(w: World, c: Context<D>, mid: seq<Stage<D>>, doMid: Behaviour<D>,
                     schedule: seq<nat>, states: seq<State<D>>)
    requires GoodContext(w, c) && AllValid(w, mid)
    requires LocallyConsistent(Programs(w, mid), doMid) == true
    requires IsRun(Programs(w, Whole(w, c, mid)), WholeDo(w, c, mid, doMid), schedule, states) == true
    ensures |states| > |schedule| && GoodRun(Programs(w, Whole(w, c, mid)), schedule, states[|schedule|]) == true
  {
    WholeConsistent(w, c, mid, doMid);
    ProgramsMatch(w, Whole(w, c, mid));
    RunsComplete(Programs(w, Whole(w, c, mid)), WholeDo(w, c, mid, doMid), schedule, states);
  }
}
