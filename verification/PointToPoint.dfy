/** Ordered point-to-point messages between the members of a group, over a transport that may reorder
    them: sequence numbers, and a buffer for what arrives early. */
module PointToPoint {
  import opened Options

  datatype Message<P> = Message(seqNum: int, payload: P)

  // ---------- one sender and one receiver ----------

  /** The messages a sender has sent, each with its sequence number. */
  function Stamped<P>(sent: seq<P>): (ms: seq<Message<P>>)
    ensures |ms| == |sent| && forall i :: 0 <= i < |ms| ==> ms[i] == Message(i, sent[i])
  {
    seq(|sent|, i requires 0 <= i < |sent| => Message(i, sent[i]))
  }

  /** Everything sent from number `expected` on is either buffered or in transit, once. */
  ghost predicate Tracks<P>(sent: seq<P>, expected: nat, buffer: seq<Message<P>>, transit: multiset<Message<P>>) {
    expected <= |sent| && multiset(buffer) + transit == multiset(Stamped(sent)[expected..])
  }

  /** The next message is out there exactly if it has been sent. */
  lemma NextIsSomewhere<P>(sent: seq<P>, expected: nat, buffer: seq<Message<P>>, transit: multiset<Message<P>>)
    requires Tracks(sent, expected, buffer, transit) && expected < |sent|
    ensures Message(expected, sent[expected]) in multiset(buffer) + transit
  {
    assert Stamped(sent)[expected..][0] == Message(expected, sent[expected]);
  }

  lemma TrackSend<P>(sent: seq<P>, expected: nat, buffer: seq<Message<P>>, transit: multiset<Message<P>>, p: P)
    requires Tracks(sent, expected, buffer, transit)
    ensures Tracks(sent + [p], expected, buffer, transit + multiset{Message(|sent|, p)})
  {
    assert Stamped(sent + [p])[expected..] == Stamped(sent)[expected..] + [Message(|sent|, p)];
  }

  /** Taking the expected message out moves on to the next one. */
  lemma TrackReturn<P>(sent: seq<P>, expected: nat, buffer: seq<Message<P>>, transit: multiset<Message<P>>,
                       buffer': seq<Message<P>>, transit': multiset<Message<P>>, m: Message<P>)
    requires Tracks(sent, expected, buffer, transit) && m.seqNum == expected
    requires multiset(buffer) + transit == multiset(buffer') + transit' + multiset{m}
    ensures expected < |sent| && m.payload == sent[expected] && Tracks(sent, expected + 1, buffer', transit')
  {
    assert m in multiset(buffer) + transit;
    assert m in Stamped(sent)[expected..];
    assert Stamped(sent)[expected..] == [m] + Stamped(sent)[expected + 1..];
    assert multiset(Stamped(sent)[expected..]) - multiset{m} == multiset(Stamped(sent)[expected + 1..]);
    assert multiset(buffer') + transit' + multiset{m} - multiset{m} == multiset(buffer') + transit';
  }

  // ---------- every run ----------

  /** A channel with its history: what was sent, where it is now, and what was handed to the caller. */
  datatype Channel<P(==)> = Channel(sent: seq<P>, transit: multiset<Message<P>>, buffer: seq<Message<P>>, expected: nat,
                                returned: seq<P>)

  /** The sender sends, the transport hands over any message in transit, or the receiver finds the one it
      expects in its buffer. */
  datatype Event<P> = Send(p: P) | Deliver(m: Message<P>) | TakeBuffered(i: nat)

  predicate Possible<P(==)>(c: Channel<P>, e: Event<P>) {
    match e
    case Send(_) => true
    case Deliver(m) => m in c.transit
    case TakeBuffered(i) => i < |c.buffer| && c.buffer[i].seqNum == c.expected
  }

  function Next<P(==)>(c: Channel<P>, e: Event<P>): Channel<P>
    requires Possible(c, e)
  {
    match e
    case Send(p) => c.(sent := c.sent + [p], transit := c.transit + multiset{Message(|c.sent|, p)})
    case Deliver(m) =>
      var c' := c.(transit := c.transit - multiset{m});
      if m.seqNum == c.expected then c'.(expected := c.expected + 1, returned := c.returned + [m.payload])
      else c'.(buffer := c.buffer + [m])
    case TakeBuffered(i) =>
      c.(buffer := c.buffer[..i] + c.buffer[i + 1..], expected := c.expected + 1,
         returned := c.returned + [c.buffer[i].payload])
  }

  /** Nothing lost, nothing doubled, and what the caller got is how the sender's sequence starts. */
  ghost predicate InOrder<P>(c: Channel<P>) {
    Tracks(c.sent, c.expected, c.buffer, c.transit) && c.returned == c.sent[..c.expected]
  }

  lemma DeliverKeepsOrder<P>(c: Channel<P>, m: Message<P>)
    requires InOrder(c) && m in c.transit
    ensures InOrder(Next(c, Deliver(m)))
  {
    var c' := Next(c, Deliver(m));
    MoveOne(multiset(c.buffer), c.transit, m);
    if m.seqNum == c.expected {
      TrackReturn(c.sent, c.expected, c.buffer, c.transit, c'.buffer, c'.transit, m);
      assert c.sent[..c.expected + 1] == c.sent[..c.expected] + [m.payload];
    } else {
      assert multiset(c'.buffer) == multiset(c.buffer) + multiset{m};
    }
  }

  lemma RemoveAt<T>(s: seq<T>, i: nat, t: multiset<T>)
    requires i < |s|
    ensures multiset(s) + t == multiset(s[..i] + s[i + 1..]) + t + multiset{s[i]}
  {
    assert s == s[..i] + [s[i]] + s[i + 1..];
    assert multiset(s) == multiset(s[..i] + s[i + 1..]) + multiset{s[i]};
  }

  lemma MoveOne<T>(a: multiset<T>, t: multiset<T>, m: T)
    requires m in t
    ensures (a + multiset{m}) + (t - multiset{m}) == a + t == a + (t - multiset{m}) + multiset{m}
  {
  }

  lemma TakeKeepsOrder<P>(c: Channel<P>, i: nat)
    requires InOrder(c) && Possible(c, TakeBuffered(i))
    ensures InOrder(Next(c, TakeBuffered(i)))
  {
    hide Tracks;
    var c' := Next(c, TakeBuffered(i));
    RemoveAt(c.buffer, i, c.transit);
    TrackReturn(c.sent, c.expected, c.buffer, c.transit, c'.buffer, c'.transit, c.buffer[i]);
    assert c.sent[..c.expected + 1] == c.sent[..c.expected] + [c.buffer[i].payload];
  }

  lemma StepKeepsOrder<P>(c: Channel<P>, e: Event<P>)
    requires InOrder(c) && Possible(c, e)
    ensures InOrder(Next(c, e))
  {
    match e
    case Send(p) => TrackSend(c.sent, c.expected, c.buffer, c.transit, p);
    case Deliver(m) => DeliverKeepsOrder(c, m);
    case TakeBuffered(i) => TakeKeepsOrder(c, i);
  }

  ghost predicate IsRun<P(!new)>(c: Channel<P>, es: seq<Event<P>>)
    decreases |es|
  {
    es == [] || (Possible(c, es[0]) && IsRun(Next(c, es[0]), es[1..]))
  }

  ghost function After<P(!new)>(c: Channel<P>, es: seq<Event<P>>): Channel<P>
    requires IsRun(c, es)
    decreases |es|
  {
    if es == [] then c else After(Next(c, es[0]), es[1..])
  }

  /** However the transport reorders, what has been received is a prefix of what was sent, and every
      message sent is returned, buffered once or still in transit. */
  lemma {:induction false} DeliveryIsInOrder<P(!new)>(c: Channel<P>, es: seq<Event<P>>)
    requires InOrder(c) && IsRun(c, es)
    ensures var c' := After(c, es);
            && InOrder(c') && c'.returned <= c'.sent
            && |c'.sent| == |c'.returned| + |c'.buffer| + |c'.transit|
    decreases |es|
  {
    if es == [] {
      assert |multiset(c.buffer) + c.transit| == |multiset(Stamped(c.sent)[c.expected..])|;
    } else {
      StepKeepsOrder(c, es[0]);
      DeliveryIsInOrder(Next(c, es[0]), es[1..]);
    }
  }

  // ---------- leftovers of an earlier group ----------

  /** Where the first message with that number is, or the end. */
  function FirstNumbered<P>(buffer: seq<Message<P>>, n: int): (i: nat)
    ensures i <= |buffer| && (i < |buffer| ==> buffer[i].seqNum == n)
    ensures forall j :: 0 <= j < i ==> buffer[j].seqNum != n
  {
    if buffer == [] then 0 else if buffer[0].seqNum == n then 0 else 1 + FirstNumbered(buffer[1..], n)
  }

  /** The receiver looks in its buffer first, from the front. */
  predicate Picks<P(==)>(c: Channel<P>, e: Event<P>) {
    match e
    case Send(_) => true
    case Deliver(_) => FirstNumbered(c.buffer, c.expected) == |c.buffer|
    case TakeBuffered(i) => i == FirstNumbered(c.buffer, c.expected)
  }

  ghost predicate IsReceiverRun<P(!new)>(c: Channel<P>, es: seq<Event<P>>)
    decreases |es|
  {
    es == [] || (Possible(c, es[0]) && Picks(c, es[0]) && IsReceiverRun(Next(c, es[0]), es[1..]))
  }

  lemma {:induction false} ReceiverRuns<P(!new)>(c: Channel<P>, es: seq<Event<P>>)
    requires IsReceiverRun(c, es)
    ensures IsRun(c, es)
    decreases |es|
  {
    if es != [] { ReceiverRuns(Next(c, es[0]), es[1..]); }
  }

  /** The buffer starts with leftovers; the rest of the channel is in order. */
  ghost predicate TracksBehind<P>(left: seq<Message<P>>, sent: seq<P>, expected: nat, buffer: seq<Message<P>>,
                                  transit: multiset<Message<P>>) {
    left <= buffer && Tracks(sent, expected, buffer[|left|..], transit)
  }

  /** No leftover has a number below k. */
  predicate NoneBelow<P(==)>(left: seq<Message<P>>, k: nat) {
    forall m :: m in left ==> !(0 <= m.seqNum < k)
  }

  /** Until number k is reached the channel is in order; from then on, what was received before stays, and
      number k was answered by the first leftover that has it. */
  ghost predicate LeftBehind<P>(left: seq<Message<P>>, k: nat, c: Channel<P>) {
    if c.expected <= k then
      TracksBehind(left, c.sent, c.expected, c.buffer, c.transit) && c.returned == c.sent[..c.expected]
    else
      && k <= |c.sent| && k < |c.returned| && c.returned[..k] == c.sent[..k]
      && var i := FirstNumbered(left, k);
         i < |left| && c.returned[k] == left[i].payload
  }

  lemma {:induction false} FirstInLeft<P>(left: seq<Message<P>>, own: seq<Message<P>>, n: int)
    ensures var i := FirstNumbered(left, n);
            FirstNumbered(left + own, n) == if i < |left| then i else |left| + FirstNumbered(own, n)
  {
    if left == [] {
      assert left + own == own;
    } else {
      assert (left + own)[1..] == left[1..] + own;
      FirstInLeft(left[1..], own, n);
    }
  }

  /** A leftover with the expected number is there: it is what the receiver gets. */
  lemma TakesLeftover<P>(left: seq<Message<P>>, k: nat, c: Channel<P>, e: Event<P>)
    requires LeftBehind(left, k, c) && c.expected == k && FirstNumbered(left, k) < |left|
    requires Possible(c, e) && Picks(c, e)
    ensures LeftBehind(left, k, Next(c, e))
  {
    var own := c.buffer[|left|..];
    assert c.buffer == left + own;
    FirstInLeft(left, own, k);
    if e.Send? {
      TrackSend(c.sent, c.expected, own, c.transit, e.p);
      assert (c.sent + [e.p])[..k] == c.sent[..k];
    }
  }

  /** No leftover has the expected number: the channel behind the leftovers goes on as if they were not there. */
  lemma StepsBehind<P>(left: seq<Message<P>>, k: nat, c: Channel<P>, e: Event<P>)
    requires LeftBehind(left, k, c) && c.expected < k && FirstNumbered(left, c.expected) == |left|
    requires Possible(c, e) && Picks(c, e)
    ensures LeftBehind(left, k, Next(c, e))
  {
    hide Tracks, Next, FirstNumbered;
    var own := c.buffer[|left|..];
    assert c.buffer == left + own;
    FirstInLeft(left, own, c.expected);
    var d := c.(buffer := own);
    var e' := if e.TakeBuffered? then TakeBuffered(e.i - |left|) else e;
    StepKeepsOrder(d, e');
    SameBehind(left, own, c, e, e');
    InOrderBehind(left, k, Next(c, e), Next(d, e'));
  }

  lemma SameBehind<P>(left: seq<Message<P>>, own: seq<Message<P>>, c: Channel<P>, e: Event<P>, e': Event<P>)
    requires c.buffer == left + own && Possible(c, e) && Possible(c.(buffer := own), e')
    requires if e.TakeBuffered? then e.i >= |left| && e' == TakeBuffered(e.i - |left|) else e' == e
    ensures var d := Next(c.(buffer := own), e'); Next(c, e) == d.(buffer := left + d.buffer)
    ensures Next(c, e).expected <= c.expected + 1
  {
    if e.TakeBuffered? {
      var i := e.i - |left|;
      assert c.buffer[..e.i] == left + own[..i] && c.buffer[e.i + 1..] == own[i + 1..];
      assert left + own[..i] + own[i + 1..] == left + (own[..i] + own[i + 1..]);
    } else if e.Deliver? {
      assert left + own + [e.m] == left + (own + [e.m]);
    }
  }

  lemma InOrderBehind<P>(left: seq<Message<P>>, k: nat, c: Channel<P>, d: Channel<P>)
    requires InOrder(d) && c == d.(buffer := left + d.buffer) && c.expected <= k
    ensures LeftBehind(left, k, c)
  {
    assert c.buffer[|left|..] == d.buffer;
  }

  lemma NotYet<P>(left: seq<Message<P>>, k: nat, n: nat)
    requires NoneBelow(left, k) && n < k
    ensures FirstNumbered(left, n) == |left|
  {
    assert forall i :: 0 <= i < |left| ==> left[i] in left;
  }

  lemma StaysBehind<P>(left: seq<Message<P>>, k: nat, c: Channel<P>, e: Event<P>)
    requires LeftBehind(left, k, c) && c.expected > k && Possible(c, e)
    ensures LeftBehind(left, k, Next(c, e))
  {
    var c' := Next(c, e);
    assert c'.sent[..k] == c.sent[..k] && c'.returned[..k] == c.returned[..k];
  }

  lemma LeftBehindStep<P>(left: seq<Message<P>>, k: nat, c: Channel<P>, e: Event<P>)
    requires NoneBelow(left, k) && FirstNumbered(left, k) < |left| && LeftBehind(left, k, c)
    requires Possible(c, e) && Picks(c, e)
    ensures LeftBehind(left, k, Next(c, e))
  {
    hide LeftBehind;
    if c.expected < k {
      NotYet(left, k, c.expected);
      StepsBehind(left, k, c, e);
    } else if c.expected == k {
      TakesLeftover(left, k, c, e);
    } else {
      StaysBehind(left, k, c, e);
    }
  }

  lemma {:induction false} LeftBehindRun<P(!new)>(left: seq<Message<P>>, k: nat, c: Channel<P>, es: seq<Event<P>>)
    requires NoneBelow(left, k) && FirstNumbered(left, k) < |left| && LeftBehind(left, k, c)
    requires IsReceiverRun(c, es)
    ensures IsRun(c, es) && LeftBehind(left, k, After(c, es))
    decreases |es|
  {
    hide LeftBehind;
    ReceiverRuns(c, es);
    if es != [] {
      LeftBehindStep(left, k, c, es[0]);
      LeftBehindRun(left, k, Next(c, es[0]), es[1..]);
    }
  }

  /** What a channel of a new group does when messages were left in its buffer, k being the lowest number among
      them. In every run the first k receives are in order, and the next one returns the leftover, whatever
      was sent. So order breaks exactly there, unless the leftover happens to carry what was sent. */
  lemma LeftoverIsReturned<P(!new)>(left: seq<Message<P>>, k: nat, es: seq<Event<P>>)
    requires NoneBelow(left, k) && FirstNumbered(left, k) < |left|
    requires IsReceiverRun(Channel([], multiset{}, left, 0, []), es)
    ensures IsRun(Channel([], multiset{}, left, 0, []), es)
    ensures var c := After(Channel([], multiset{}, left, 0, []), es);
            && (c.expected <= k ==> c.expected <= |c.sent| && c.returned == c.sent[..c.expected])
            && (c.expected > k ==>
                  && k < |c.returned| && k <= |c.sent| && c.returned[..k] == c.sent[..k]
                  && c.returned[k] == left[FirstNumbered(left, k)].payload)
            && (c.expected > k && c.returned <= c.sent ==> c.sent[k] == left[FirstNumbered(left, k)].payload)
  {
    var start := Channel([], multiset{}, left, 0, []);
    assert left[|left|..] == [];
    CleanIffEmpty<P>([]);
    LeftBehindRun(left, k, start, es);
  }

  // ---------- the broker's thread-local state ----------

  const NO_CURRENT_GROUP_ID := -1

  class PointToPointBroker<P(==)> {
    var currentGroupId: int
    var sentMsgCount: seq<nat>
    var recvMsgCount: seq<nat>
    var outOfOrderMsgs: seq<seq<Message<P>>>

    ghost predicate Ready(groupId: int, size: nat)
      reads this
    {
      currentGroupId == groupId && |sentMsgCount| == |recvMsgCount| == |outOfOrderMsgs| == size
    }

    constructor ()
      ensures currentGroupId == NO_CURRENT_GROUP_ID && outOfOrderMsgs == []
    {
      currentGroupId, sentMsgCount, recvMsgCount, outOfOrderMsgs := NO_CURRENT_GROUP_ID, [], [], [];
    }

    /** Counters start over for a new group; the out-of-order buffers are only resized. So a channel of the
        new group starts clean iff nothing was left in its buffer. */
    method InitSequenceCounters(groupId: int, size: nat)
      modifies this
      ensures Ready(groupId, size)
      ensures forall i :: 0 <= i < size ==> sentMsgCount[i] == 0 && recvMsgCount[i] == 0
      ensures forall i :: 0 <= i < size ==>
                outOfOrderMsgs[i] == if i < |old(outOfOrderMsgs)| then old(outOfOrderMsgs)[i] else []
      ensures forall i :: 0 <= i < size ==>
                (Tracks([], recvMsgCount[i], outOfOrderMsgs[i], multiset{}) <==> outOfOrderMsgs[i] == [])
    {
      currentGroupId := groupId;
      sentMsgCount := seq(size, _ => 0);
      recvMsgCount := seq(size, _ => 0);
      outOfOrderMsgs := seq(size, i requires 0 <= i < size reads this =>
        if i < |outOfOrderMsgs| then outOfOrderMsgs[i] else []);
      forall i | 0 <= i < size
        ensures Tracks([], recvMsgCount[i], outOfOrderMsgs[i], multiset{}) <==> outOfOrderMsgs[i] == []
      {
        CleanIffEmpty(outOfOrderMsgs[i]);
      }
    }

    /** Numbers an outgoing message and hands it to the transport. */
    method SendMessage(groupId: int, size: nat, recvIdx: nat, p: P) returns (m: Message<P>)
      requires Ready(groupId, size) && recvIdx < size
      modifies this`sentMsgCount
      ensures Ready(groupId, size) && m == Message(old(sentMsgCount)[recvIdx], p)
      ensures sentMsgCount == old(sentMsgCount)[recvIdx := old(sentMsgCount)[recvIdx] + 1]
    {
      m := Message(sentMsgCount[recvIdx], p);
      sentMsgCount := sentMsgCount[recvIdx := sentMsgCount[recvIdx] + 1];
    }

    /** Receives the next message in order. `arrivals` is all that is in transit from that sender, in the
        order the transport delivers it; `rest` is what has not been taken from it. `left` is what an earlier
        group left in the buffer: a leftover with the expected number is returned instead, and the message
        itself stays behind. None stands for a call that blocks until it times out, which happens only if
        there is no such leftover and the next message has not been sent. */
    method RecvMessage(groupId: int, size: nat, sendIdx: nat, arrivals: seq<Message<P>>, ghost sent: seq<P>,
                       ghost left: seq<Message<P>>)
      returns (p: Option<P>, rest: seq<Message<P>>)
      requires Ready(groupId, size) && sendIdx < size
      requires TracksBehind(left, sent, recvMsgCount[sendIdx], outOfOrderMsgs[sendIdx], multiset(arrivals))
      modifies this`recvMsgCount, this`outOfOrderMsgs
      ensures Ready(groupId, size)
      ensures var expected, i := old(recvMsgCount)[sendIdx], FirstNumbered(left, old(recvMsgCount)[sendIdx]);
              if i < |left| then
                && p == Some(left[i].payload) && rest == arrivals
                && outOfOrderMsgs[sendIdx] == Removed(old(outOfOrderMsgs)[sendIdx], i)
              else
                && p == (if expected < |sent| then Some(sent[expected]) else None)
                && TracksBehind(left, sent, recvMsgCount[sendIdx], outOfOrderMsgs[sendIdx], multiset(rest))
      ensures recvMsgCount ==
                if p.Some? then old(recvMsgCount)[sendIdx := old(recvMsgCount)[sendIdx] + 1] else old(recvMsgCount)
      ensures forall i :: 0 <= i < size && i != sendIdx ==> outOfOrderMsgs[i] == old(outOfOrderMsgs)[i]
    {
      var expected := recvMsgCount[sendIdx];
      var buffer := outOfOrderMsgs[sendIdx];
      rest := arrivals;
      var found := Find(buffer, expected);
      ghost var own := buffer[|left|..];
      assert buffer == left + own;
      FirstInLeft(left, own, expected);
      if found < |buffer| {
        recvMsgCount := recvMsgCount[sendIdx := expected + 1];
        outOfOrderMsgs := outOfOrderMsgs[sendIdx := buffer[..found] + buffer[found + 1..]];
        if found >= |left| { TakeBehind(left, sent, expected, buffer, multiset(rest), found); }
        return Some(buffer[found].payload), rest;
      }
      p, rest := Await(size, sendIdx, arrivals, sent, left);
    }

    /** Takes messages off the transport, keeping those that come too early, until the expected one. */
    method Await(size: nat, sendIdx: nat, arrivals: seq<Message<P>>, ghost sent: seq<P>, ghost left: seq<Message<P>>)
      returns (p: Option<P>, rest: seq<Message<P>>)
      requires |recvMsgCount| == |outOfOrderMsgs| == size && sendIdx < size
      requires TracksBehind(left, sent, recvMsgCount[sendIdx], outOfOrderMsgs[sendIdx], multiset(arrivals))
      requires forall m :: m in outOfOrderMsgs[sendIdx] ==> m.seqNum != recvMsgCount[sendIdx]
      modifies this`recvMsgCount, this`outOfOrderMsgs
      ensures |recvMsgCount| == |outOfOrderMsgs| == size
      ensures p == if old(recvMsgCount)[sendIdx] < |sent| then Some(sent[old(recvMsgCount)[sendIdx]]) else None
      ensures recvMsgCount ==
                if p.Some? then old(recvMsgCount)[sendIdx := old(recvMsgCount)[sendIdx] + 1] else old(recvMsgCount)
      ensures TracksBehind(left, sent, recvMsgCount[sendIdx], outOfOrderMsgs[sendIdx], multiset(rest))
      ensures forall i :: 0 <= i < size && i != sendIdx ==> outOfOrderMsgs[i] == old(outOfOrderMsgs)[i]
    {
      var expected := recvMsgCount[sendIdx];
      var buffer := outOfOrderMsgs[sendIdx];
      ghost var own := buffer[|left|..];
      rest := arrivals;
      while rest != []
        invariant buffer == left + own && Tracks(sent, expected, own, multiset(rest))
        invariant forall m :: m in buffer ==> m.seqNum != expected
        decreases |rest|
      {
        var m := rest[0];
        assert rest == [m] + rest[1..];
        if m.seqNum == expected {
          TrackReturn(sent, expected, own, multiset(rest), own, multiset(rest[1..]), m);
          recvMsgCount := recvMsgCount[sendIdx := expected + 1];
          outOfOrderMsgs := outOfOrderMsgs[sendIdx := buffer];
          return Some(m.payload), rest[1..];
        }
        buffer, own := buffer + [m], own + [m];
        rest := rest[1..];
      }
      outOfOrderMsgs := outOfOrderMsgs[sendIdx := buffer];
      p := None;
      if expected < |sent| { NextIsSomewhere(sent, expected, own, multiset(rest)); }
    }
  }

  function Removed<T>(s: seq<T>, i: nat): seq<T>
    requires i < |s|
  {
    s[..i] + s[i + 1..]
  }

  /** The expected message was buffered behind the leftovers. */
  lemma TakeBehind<P>(left: seq<Message<P>>, sent: seq<P>, expected: nat, buffer: seq<Message<P>>,
                      transit: multiset<Message<P>>, i: nat)
    requires TracksBehind(left, sent, expected, buffer, transit)
    requires |left| <= i < |buffer| && buffer[i].seqNum == expected
    ensures expected < |sent| && buffer[i].payload == sent[expected]
    ensures TracksBehind(left, sent, expected + 1, Removed(buffer, i), transit)
  {
    var own, j := buffer[|left|..], i - |left|;
    RemoveAt(own, j, transit);
    TrackReturn(sent, expected, own, transit, Removed(own, j), transit, own[j]);
    assert Removed(buffer, i)[|left|..] == Removed(own, j);
  }

  method Find<P>(buffer: seq<Message<P>>, expected: int) returns (i: nat)
    ensures i == FirstNumbered(buffer, expected)
  {
    i := 0;
    while i < |buffer| && buffer[i].seqNum != expected
      invariant i <= FirstNumbered(buffer, expected)
    {
      i := i + 1;
    }
  }

  lemma CleanIffEmpty<P>(buffer: seq<Message<P>>)
    ensures Tracks([], 0, buffer, multiset{}) <==> buffer == []
  {
    assert multiset(buffer) + multiset{} == multiset(buffer) && |multiset(buffer)| == |buffer|;
    assert Stamped<P>([])[0..] == [];
  }
}
