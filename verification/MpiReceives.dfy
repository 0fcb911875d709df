/** Blocking and asynchronous receives on one (sender, receiver) pair, which share one FIFO of
    incoming messages: the k-th receive posted gets the k-th message sent (MPI 3.1, section 3.5),
    in whatever order the requests are awaited. */
module MpiReceives {
  import opened Options

  // ---------- request ids ----------

  const ISEND_MAGIC: bv32 := 0xFF

  /** Packs the magic, a unique byte and the two ranks into one 32-bit id. */
  function GetAsyncRequestId(sendRank: bv32, recvRank: bv32, isSend: bool, uniqueId: bv32): bv32 {
    (if isSend then ISEND_MAGIC << 24 else 0) | ((uniqueId & 0xFF) << 16) | ((sendRank & 0xFF) << 8) | (recvRank & 0xFF)
  }

  function GetRanksFromRequestId(id: bv32): (bv32, bv32, bool) {
    ((id >> 8) & 0xFF, id & 0xFF, (id >> 24) & 0xFF == ISEND_MAGIC)
  }

  lemma RequestIdRoundTrip(sendRank: bv32, recvRank: bv32, isSend: bool, uniqueId: bv32)
    requires sendRank < 256 && recvRank < 256
    ensures GetRanksFromRequestId(GetAsyncRequestId(sendRank, recvRank, isSend, uniqueId))
            == (sendRank, recvRank, isSend)
  {
    assert sendRank & 0xFF == sendRank && recvRank & 0xFF == recvRank;
    var u := (uniqueId & 0xFF) << 16;
    assert u & 0xFF00FFFF == 0;
  }

  /** The id 0, which a blocking receive passes, is only ever that of a receive of rank 0 from itself whose
      unique byte is 0. */
  lemma RequestIdZero(sendRank: bv32, recvRank: bv32, isSend: bool, uniqueId: bv32)
    requires sendRank < 256 && recvRank < 256
    ensures GetAsyncRequestId(sendRank, recvRank, isSend, uniqueId) == 0 <==>
              sendRank == 0 && recvRank == 0 && !isSend && uniqueId & 0xFF == 0
  {
    if GetAsyncRequestId(sendRank, recvRank, isSend, uniqueId) == 0 {
      RequestIdRoundTrip(sendRank, recvRank, isSend, uniqueId);
      assert (uniqueId & 0xFF) << 16 == 0;
    }
  }

  // ---------- pending receives ----------

  /** A posted irecv: the p-th receive of this pair, acknowledged once its message has been read. */
  datatype Entry = Entry(requestId: bv32, acked: bool, post: nat)

  ghost predicate AckedPrefix(pending: seq<Entry>, a: nat) {
    && a <= |pending|
    && (forall i :: 0 <= i < a ==> pending[i].acked)
    && forall i :: a <= i < |pending| ==> !pending[i].acked
  }

  /** From a on, the pending entries are the next posts to be served, in order. */
  ghost predicate NextPosts(pending: seq<Entry>, a: nat, taken: nat, posts: nat)
    requires a <= |pending|
  {
    && taken + |pending| - a == posts
    && forall i :: a <= i < |pending| ==> pending[i].post == taken + i - a
  }

  ghost predicate OutstandingIds(pending: seq<Entry>) {
    && (forall i :: 0 <= i < |pending| ==> pending[i].requestId != 0)
    && forall i, j :: 0 <= i < j < |pending| ==> pending[i].requestId != pending[j].requestId
  }

  ghost predicate FirstServed<Msg>(got: map<nat, Msg>, sent: seq<Msg>, taken: nat) {
    && taken <= |sent|
    && forall p: nat :: (p in got <==> p < taken) && (p < taken ==> p in got && got[p] == sent[p])
  }

  ghost predicate Consistent<Msg>(pending: seq<Entry>, a: nat, got: map<nat, Msg>, taken: nat, posts: nat,
                                  sent: seq<Msg>) {
    && AckedPrefix(pending, a) && NextPosts(pending, a, taken, posts) && OutstandingIds(pending)
    && (forall i :: 0 <= i < a ==> pending[i].post < taken)
    && FirstServed(got, sent, taken)
  }

  /** Where the request is pending, or the end. */
  function RequestAt(pending: seq<Entry>, requestId: bv32): (k: nat)
    ensures k <= |pending| && forall j :: 0 <= j < k ==> pending[j].requestId != requestId
    ensures k < |pending| ==> pending[k].requestId == requestId
  {
    if pending == [] then 0
    else if pending[0].requestId == requestId then 0
    else 1 + RequestAt(pending[1..], requestId)
  }

  /** The same requests, whether acknowledged since or not. */
  ghost predicate SameRequests(a: seq<Entry>, b: seq<Entry>) {
    && |a| == |b|
    && forall j :: 0 <= j < |a| ==> a[j].requestId == b[j].requestId && a[j].post == b[j].post
  }

  lemma EraseKeeps<Msg>(pending: seq<Entry>, a: nat, got: map<nat, Msg>, taken: nat, posts: nat, sent: seq<Msg>, i: nat)
    requires Consistent(pending, a, got, taken, posts, sent) && i < |pending| && pending[i].acked
    ensures a > 0 && Consistent(Erased(pending, i), a - 1, got, taken, posts, sent)
  {
  }

  function Erased(pending: seq<Entry>, i: nat): seq<Entry>
    requires i < |pending|
  {
    pending[..i] + pending[i + 1..]
  }

  class ReceiverPair<Msg> {
    const sendRank: bv32
    const recvRank: bv32
    const sent: seq<Msg>          // what the sender sends on this pair, in order
    var taken: nat                // messages read from the transport so far
    var posts: nat                // receives posted so far, blocking or not
    var pending: seq<Entry>       // the unacked message buffer
    var got: map<nat, Msg>        // contents of the buffer given to each posted receive
    ghost var acked: nat

    ghost predicate Valid()
      reads this
    {
      sendRank < 256 && recvRank < 256 && Consistent(pending, acked, got, taken, posts, sent)
    }

    constructor (from: bv32, to: bv32, messages: seq<Msg>)
      requires from < 256 && to < 256
      ensures Valid() && sendRank == from && recvRank == to && sent == messages && posts == 0 && pending == []
    {
      sendRank, recvRank, sent := from, to, messages;
      taken, posts, pending, got, acked := 0, 0, [], map[], 0;
    }

    /** Posts a receive under an id made of the ranks and a unique byte; its buffer is filled later. */
    method IRecv(uniqueId: bv32) returns (requestId: bv32)
      requires Valid() && (sendRank != recvRank || sendRank != 0 || uniqueId & 0xFF != 0)
      requires RequestAt(pending, GetAsyncRequestId(sendRank, recvRank, false, uniqueId)) == |pending|
      modifies this`pending, this`posts
      ensures Valid() && posts == old(posts) + 1
      ensures requestId == GetAsyncRequestId(sendRank, recvRank, false, uniqueId)
      ensures pending == old(pending) + [Entry(requestId, false, old(posts))]
    {
      requestId := GetAsyncRequestId(sendRank, recvRank, false, uniqueId);
      RequestIdZero(sendRank, recvRank, false, uniqueId);
      hide GetAsyncRequestId;
      pending := pending + [Entry(requestId, false, posts)];
      posts := posts + 1;
    }

    /** Reads the message for pending entry i, if that has not happened yet. */
    method Acknowledge(i: nat)
      requires Valid() && i < |pending| && acked >= i && pending[i].post < |sent|
      modifies this`taken, this`pending, this`got, this`acked
      ensures Valid() && acked > i
      ensures acked == if old(acked) == i then i + 1 else old(acked)
      ensures pending == old(pending)[i := old(pending)[i].(acked := true)]
    {
      if !pending[i].acked {
        got := got[pending[i].post := sent[taken]];
        pending := pending[i := pending[i].(acked := true)];
        taken := taken + 1;
        acked := acked + 1;
      }
    }

    /** The sender sends enough for every pending receive up to the one asked for. */
    ghost predicate EnoughFor(requestId: bv32)
      reads this
    {
      forall j :: 0 <= j < |pending| && j <= RequestAt(pending, requestId) ==> pending[j].post < |sent|
    }

    /** The loop of recvBatchReturnLast: serves pending receives in posting order, stopping at the
        one asked for if it is there. */
    method ServePending(requestId: bv32) returns (i: nat)
      requires Valid() && EnoughFor(requestId)
      modifies this`taken, this`pending, this`got, this`acked
      ensures Valid() && SameRequests(pending, old(pending)) && i == RequestAt(old(pending), requestId)
      ensures i < |pending| ==> pending[i].acked
      ensures i == |pending| ==> acked == |pending|
    {
      i := 0;
      while i < |pending|
        invariant i <= |pending| && i <= acked && Valid() && SameRequests(pending, old(pending))
        invariant i <= RequestAt(old(pending), requestId)
      {
        Acknowledge(i);
        if pending[i].requestId == requestId {
          assert old(pending)[i].requestId == requestId;
          return i;
        }
        assert old(pending)[i].requestId != requestId;
        i := i + 1;
      }
    }

    /** Removes an acknowledged entry. */
    method Erase(i: nat)
      requires Valid() && i < |pending| && pending[i].acked
      modifies this`pending, this`acked
      ensures Valid() && pending == Erased(old(pending), i)
    {
      EraseKeeps(pending, acked, got, taken, posts, sent, i);
      pending := pending[..i] + pending[i + 1..];
      acked := acked - 1;
    }

    /** Serves the pending receives; if the request is one of them, up to it, and takes it off; otherwise
        all of them, and takes one more message. */
    method RecvBatchReturnLast(requestId: bv32) returns (msg: Option<Msg>)
      requires Valid() && EnoughFor(requestId)
      requires RequestAt(pending, requestId) == |pending| ==> posts < |sent|
      modifies this
      ensures Valid()
      ensures var k := RequestAt(old(pending), requestId);
              if k < old(|pending|) then
                && SameRequests(pending, Erased(old(pending), k)) && posts == old(posts) && msg == None
                && old(pending)[k].post in got && got[old(pending)[k].post] == sent[old(pending)[k].post]
              else
                && SameRequests(pending, old(pending)) && acked == |pending|
                && posts == old(posts) + 1 && msg == Some(sent[old(posts)])
    {
      var i := ServePending(requestId);
      if i < |pending| {
        Erase(i);
        return None;
      }
      posts := posts + 1;
      msg := Some(sent[taken]);
      got := got[taken := sent[taken]];
      taken := taken + 1;
    }

    /** Awaiting an outstanding receive: whatever was awaited before, its buffer holds the message that
        was sent as many-th as the receive was posted, and the other receives stay posted. Awaiting a send
        does nothing. (An unknown receive id swallows the next message.) */
    method AwaitAsyncRequest(requestId: bv32)
      requires Valid()
      requires !GetRanksFromRequestId(requestId).2 ==>
                 && EnoughFor(requestId)
                 && (RequestAt(pending, requestId) == |pending| ==> posts < |sent|)
      modifies this
      ensures Valid()
      ensures GetRanksFromRequestId(requestId).2 ==> pending == old(pending) && posts == old(posts) && got == old(got)
      ensures !GetRanksFromRequestId(requestId).2 ==>
                var k := RequestAt(old(pending), requestId);
                if k < old(|pending|) then
                  && SameRequests(pending, Erased(old(pending), k)) && posts == old(posts)
                  && old(pending)[k].post in got && got[old(pending)[k].post] == sent[old(pending)[k].post]
                else SameRequests(pending, old(pending)) && posts == old(posts) + 1
    {
      hide GetRanksFromRequestId;
      if GetRanksFromRequestId(requestId).2 { return; }
      var msg := RecvBatchReturnLast(requestId);
    }

    /** A blocking receive: serves every pending one first, then takes the next message. */
    method Recv() returns (msg: Msg)
      requires Valid() && posts < |sent|
      modifies this
      ensures Valid() && posts == old(posts) + 1 && msg == sent[old(posts)]
      ensures SameRequests(pending, old(pending)) && acked == |pending|
    {
      var last := RecvBatchReturnLast(0);
      msg := last.value;
    }
  }
}
