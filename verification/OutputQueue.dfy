/** The output queue of a connection (src/server/server.cpp): buffers waiting for a socket that takes as
    much as it likes. */
module OutputQueues {
  import opened Bytes
  import opened Sequences

  const MAX_PENDING_WRITE_BYTES: nat := 16 * 1024 * 1024
  const MAX_SCATTER_BUFFERS: nat := 16

  /** What the error number says after a send that took nothing; waiting may fail too. */
  datatype Error = Interrupted | WouldBlock(waitFails: bool) | Broken

  /** One answer of the socket: how many bytes it would take, and the error number if it takes none.  A
      send of no bytes at all takes none, and finds whatever error number was there before. */
  datatype Answer = Answer(takes: nat, error: Error)

  function Concat(buffers: seq<seq<byte>>): seq<byte> {
    if buffers == [] then [] else buffers[0] + Concat(buffers[1..])
  }

  lemma {:induction false} ConcatAppend(buffers: seq<seq<byte>>, more: seq<seq<byte>>)
    ensures Concat(buffers + more) == Concat(buffers) + Concat(more)
  {
    if buffers == [] {
      assert buffers + more == more;
      assert [] + Concat(more) == Concat(more);
    } else {
      ConcatAppend(buffers[1..], more);
      assert (buffers + more)[1..] == buffers[1..] + more;
      Associative(buffers[0], Concat(buffers[1..]), Concat(more));
    }
  }

  lemma ConcatOne(b: seq<byte>)
    ensures Concat([b]) == b
  {
    assert Concat([b]) == b + [];
  }

  /** The offset is inside the first buffer. */
  predicate Shape(buffers: seq<seq<byte>>, offset: nat) {
    offset == 0 || (buffers != [] && offset < |buffers[0]|)
  }

  /** The slices still queued, the first `offset` bytes of the first buffer being gone. */
  function Queued(buffers: seq<seq<byte>>, offset: nat): (slices: seq<seq<byte>>)
    requires Shape(buffers, offset)
    ensures |slices| == |buffers|
  {
    if buffers == [] then [] else [buffers[0][offset..]] + buffers[1..]
  }

  lemma QueuedPush(buffers: seq<seq<byte>>, offset: nat, b: seq<byte>)
    requires Shape(buffers, offset)
    ensures Shape(buffers + [b], offset)
    ensures Concat(Queued(buffers + [b], offset)) == Concat(Queued(buffers, offset)) + b
  {
    assert Queued(buffers + [b], offset) == Queued(buffers, offset) + [b];
    ConcatAppend(Queued(buffers, offset), [b]);
    ConcatOne(b);
  }

  // ---------------------------------------------------------------------------------------
  // Sending and consuming
  // ---------------------------------------------------------------------------------------

  /** The slices handed to one send. */
  function Window(slices: seq<seq<byte>>, size: nat): seq<seq<byte>> {
    if |slices| < size then slices else slices[..size]
  }

  /** They hold the front of what is queued. */
  lemma WindowIsFront(slices: seq<seq<byte>>, size: nat)
    ensures Concat(Window(slices, size)) <= Concat(slices)
  {
    if size <= |slices| {
      Halves(slices, size);
      ConcatAppend(slices[..size], slices[size..]);
    }
  }

  /** What `consume` leaves: whole buffers go, empty ones only when more bytes are still to go, and then a
      part of the next one. */
  function Consumed(slices: seq<seq<byte>>, count: nat): seq<seq<byte>>
    requires count <= |Concat(slices)|
  {
    if count == 0 then slices
    else if count < |slices[0]| then [slices[0][count..]] + slices[1..]
    else Consumed(slices[1..], count - |slices[0]|)
  }

  lemma {:induction false} ConsumedContent(slices: seq<seq<byte>>, count: nat)
    requires count <= |Concat(slices)|
    ensures Concat(Consumed(slices, count)) == Concat(slices)[count..]
  {
    if count == 0 {
    } else {
      DropFromBoth(slices[0], Concat(slices[1..]), count);
      if count < |slices[0]| {
        assert ([slices[0][count..]] + slices[1..])[1..] == slices[1..];
      } else {
        ConsumedContent(slices[1..], count - |slices[0]|);
        assert count == |slices[0]| ==> slices[0][count..] + Concat(slices[1..]) == Concat(slices[1..])[0..];
      }
    }
  }

  /** Sixteen empty buffers in a row, from `r` on. */
  predicate EmptyRun(slices: seq<seq<byte>>, r: nat) {
    r + MAX_SCATTER_BUFFERS <= |slices| && forall i :: r <= i < r + MAX_SCATTER_BUFFERS ==> slices[i] == []
  }

  /** The queue never drains: it ends in an empty buffer, or more empty buffers in a row than one send
      looks past. */
  ghost predicate Stuck(slices: seq<seq<byte>>) {
    slices != [] && (slices[|slices| - 1] == [] || exists r :: EmptyRun(slices, r))
  }

  /** Being stuck depends on which buffers are empty, and a first buffer that is partly gone is not. */
  lemma QueuedStuck(buffers: seq<seq<byte>>, offset: nat)
    requires Shape(buffers, offset)
    ensures Stuck(Queued(buffers, offset)) <==> Stuck(buffers)
  {
    var slices := Queued(buffers, offset);
    assert forall i :: 0 <= i < |buffers| ==> (slices[i] == [] <==> buffers[i] == []);
    forall r: nat ensures EmptyRun(slices, r) <==> EmptyRun(buffers, r) {
    }
  }

  lemma TailStuck(slices: seq<seq<byte>>)
    requires slices != [] && Stuck(slices[1..])
    ensures Stuck(slices)
  {
    if r: nat :| EmptyRun(slices[1..], r) {
      assert forall i :: r + 1 <= i < r + 1 + MAX_SCATTER_BUFFERS ==> slices[i] == slices[1..][i - 1];
      assert EmptyRun(slices, r + 1);
    }
  }

  /** Without its first buffer a stuck queue is stuck, unless it starts with the run of empty ones. */
  lemma StuckTail(slices: seq<seq<byte>>)
    requires Stuck(slices) && |slices| > 1 && !EmptyRun(slices, 0)
    ensures Stuck(slices[1..])
  {
    if r: nat :| EmptyRun(slices, r) {
      assert forall i :: r - 1 <= i < r - 1 + MAX_SCATTER_BUFFERS ==> slices[1..][i] == slices[i + 1];
      assert EmptyRun(slices[1..], r - 1);
    }
  }

  /** Replacing a first buffer that is not empty by one that is not changes nothing about it. */
  lemma FirstStuck(first: seq<byte>, other: seq<byte>, more: seq<seq<byte>>)
    requires first != [] && other != [] && Stuck([first] + more)
    ensures Stuck([other] + more)
  {
    if r: nat :| EmptyRun([first] + more, r) {
      assert r > 0 by { assert ([first] + more)[0] == first; }
      assert forall i :: r <= i < r + MAX_SCATTER_BUFFERS ==> ([other] + more)[i] == ([first] + more)[i];
      assert EmptyRun([other] + more, r);
    } else {
      assert more != [];
    }
  }

  lemma {:induction false} EmptyWindow(slices: seq<seq<byte>>, size: nat)
    requires size <= |slices| && forall i :: 0 <= i < size ==> slices[i] == []
    ensures Concat(slices[..size]) == []
  {
    if size > 0 {
      assert slices[..size][1..] == slices[1..][..size - 1];
      EmptyWindow(slices[1..], size - 1);
    }
  }

  /** A send that takes all of the first buffer and more does not start with the run of empty ones. */
  lemma FirstOfStuck(slices: seq<seq<byte>>, count: nat, size: nat)
    requires Stuck(slices) && size <= MAX_SCATTER_BUFFERS && 0 < count <= |Concat(Window(slices, size))|
    requires count >= |slices[0]|
    ensures size > 0 && Stuck(slices[1..]) && count - |slices[0]| <= |Concat(Window(slices[1..], size - 1))|
  {
    WindowTail(slices, size);
    if EmptyRun(slices, 0) {
      EmptyWindow(slices, size);
    } else {
      StuckTail(slices);
    }
  }

  /** What one send takes from a stuck queue leaves it stuck. */
  lemma {:induction false} StaysStuck(slices: seq<seq<byte>>, count: nat, size: nat)
    requires Stuck(slices) && size <= MAX_SCATTER_BUFFERS && count <= |Concat(Window(slices, size))|
    ensures count <= |Concat(slices)| && Stuck(Consumed(slices, count))
    decreases |slices|
  {
    WindowIsFront(slices, size);
    if count == 0 {
    } else if count < |slices[0]| {
      assert slices == [slices[0]] + slices[1..];
      FirstStuck(slices[0], slices[0][count..], slices[1..]);
    } else {
      FirstOfStuck(slices, count, size);
      StaysStuck(slices[1..], count - |slices[0]|, size - 1);
    }
  }

  lemma WindowTail(slices: seq<seq<byte>>, size: nat)
    requires slices != [] && size > 0
    ensures Window(slices, size) == [slices[0]] + Window(slices[1..], size - 1)
    ensures Concat(Window(slices, size)) == slices[0] + Concat(Window(slices[1..], size - 1))
  {
    assert Window(slices, size)[1..] == Window(slices[1..], size - 1);
  }

  /** Consuming from a queue that is not stuck leaves it so. */
  lemma {:induction false} StaysFree(slices: seq<seq<byte>>, count: nat)
    requires !Stuck(slices) && count <= |Concat(slices)|
    ensures !Stuck(Consumed(slices, count))
  {
    if count == 0 {
    } else if count < |slices[0]| {
      var rest := [slices[0][count..]] + slices[1..];
      assert slices == [slices[0]] + slices[1..];
      if Stuck(rest) {
        FirstStuck(slices[0][count..], slices[0], slices[1..]);
      }
    } else {
      if Stuck(slices[1..]) {
        TailStuck(slices);
      }
      StaysFree(slices[1..], count - |slices[0]|);
    }
  }

  /** A queue that is not stuck always has bytes to send. */
  lemma FreeSends(slices: seq<seq<byte>>)
    requires !Stuck(slices) && slices != []
    ensures Concat(Window(slices, MAX_SCATTER_BUFFERS)) != []
  {
    var window := Window(slices, MAX_SCATTER_BUFFERS);
    assert !EmptyRun(slices, 0);
    if |slices| < MAX_SCATTER_BUFFERS {
      Holds(window, |window| - 1);
    } else {
      var i :| 0 <= i < MAX_SCATTER_BUFFERS && slices[i] != [];
      assert window[i] == slices[i];
      Holds(window, i);
    }
  }

  lemma {:induction false} Holds(slices: seq<seq<byte>>, i: nat)
    requires i < |slices| && slices[i] != []
    ensures Concat(slices) != []
  {
    if i > 0 {
      Holds(slices[1..], i - 1);
    }
  }

  /** Queues that drain and queues that do not: only empty buffers at the end and sixteen in a row matter. */
  lemma StuckExamples()
    ensures Stuck([[]]) && Stuck(seq(16, _ => []) + [[1]])
    ensures !Stuck([[], [1]]) && !Stuck([[1], [], [2]]) && !Stuck(seq(15, _ => []) + [[1]])
  {
    var run: seq<seq<byte>> := seq(16, _ => []) + [[1]];
    assert EmptyRun(run, 0);
  }

  // ---------------------------------------------------------------------------------------
  // The program
  // ---------------------------------------------------------------------------------------

  /** The loop that fills in the slices. */
  method Gather(buffers: seq<seq<byte>>, offset: nat) returns (vectors: seq<seq<byte>>)
    requires Shape(buffers, offset)
    ensures vectors == Window(Queued(buffers, offset), MAX_SCATTER_BUFFERS)
  {
    vectors := [];
    while |vectors| < |buffers| && |vectors| < MAX_SCATTER_BUFFERS
      invariant |vectors| <= |buffers| && |vectors| <= MAX_SCATTER_BUFFERS
      invariant forall i :: 0 <= i < |vectors| ==> vectors[i] == Queued(buffers, offset)[i]
    {
      var i := |vectors|;
      vectors := vectors + [if i == 0 then buffers[0][offset..] else buffers[i]];
    }
  }

  /** One turn of the loop of `consume`. */
  lemma ConsumeStep(buffers: seq<seq<byte>>, offset: nat, count: nat)
    requires Shape(buffers, offset) && 0 < count <= |Concat(Queued(buffers, offset))|
    ensures buffers != [] && offset <= |buffers[0]|
    ensures
      var slices, available := Queued(buffers, offset), |buffers[0]| - offset;
      if count < available then
        Shape(buffers, offset + count) && Queued(buffers, offset + count) == Consumed(slices, count)
      else
        count - available <= |Concat(buffers[1..])| &&
            Consumed(buffers[1..], count - available) == Consumed(slices, count)
  {
    var slices := Queued(buffers, offset);
    assert slices[1..] == buffers[1..];
    if count < |buffers[0]| - offset {
      DropTwice(buffers[0], offset, count);
    }
  }

  lemma QueuedWhole(buffers: seq<seq<byte>>)
    ensures Queued(buffers, 0) == buffers
  {
  }

  /** The loop of `consume`. */
  method DropFront(queued: seq<seq<byte>>, front: nat, bytes: nat) returns (buffers: seq<seq<byte>>, offset: nat)
    requires Shape(queued, front) && bytes <= |Concat(Queued(queued, front))|
    ensures Shape(buffers, offset) && Queued(buffers, offset) == Consumed(Queued(queued, front), bytes)
  {
    var b := queued;
    var at: nat, count: nat := front, bytes;
    while count > 0
      invariant Shape(b, at) && count <= |Concat(Queued(b, at))|
      invariant Consumed(Queued(b, at), count) == Consumed(Queued(queued, front), bytes)
      decreases |b|
    {
      ConsumeStep(b, at, count);
      var available := |b[0]| - at;
      if count < available {
        return b, at + count;
      }
      QueuedWhole(b[1..]);
      b, at, count := b[1..], 0, count - available;
    }
    return b, at;
  }

  /** Splitting off what was sent. */
  lemma Sent(sent: seq<byte>, content: seq<byte>, count: nat)
    requires count <= |content|
    ensures (sent + content[..count]) + content[count..] == sent + content
  {
    Associative(sent, content[..count], content[count..]);
    Halves(content, count);
  }

  /** How much of what it is offered the socket takes. */
  function Taken(a: Answer, vectors: seq<seq<byte>>): (count: nat)
    ensures count <= a.takes && count <= |Concat(vectors)| && (a.takes > 0 && Concat(vectors) != [] ==> count > 0)
  {
    if a.takes < |Concat(vectors)| then a.takes else |Concat(vectors)|
  }

  /** How a flush ends: nothing left, the socket would block, an error, or still waiting for an answer. */
  datatype Result = Drained | Blocked | Failed | Unanswered

  /** The socket takes something each time. */
  predicate AllTake(answers: seq<Answer>) {
    forall i :: 0 <= i < |answers| ==> answers[i].takes > 0
  }

  /** After this answer a flush goes on, if the send took what it could. */
  predicate GoesOn(a: Answer, wait: bool) {
    a.takes > 0 || a.error.Interrupted? || (a.error.WouldBlock? && wait && !a.error.waitFails)
  }

  /** A send that took nothing ends the flush so, going by the error. */
  predicate EndsWith(error: Error, wait: bool, r: Result) {
    match error
    case Interrupted => false
    case WouldBlock(waitFails) => if wait then waitFails && r.Failed? else r.Blocked?
    case Broken => r.Failed?
  }

  class OutputQueue {
    var buffers: seq<seq<byte>>
    var frontOffset: nat
    var pendingBytes: nat
    /** The bytes the socket took, and all bytes enqueued, since the start. */
    ghost var sent: seq<byte>
    ghost var enqueued: seq<byte>

    ghost function Slices(): seq<seq<byte>>
      requires Shape(buffers, frontOffset)
      reads this
    {
      Queued(buffers, frontOffset)
    }

    ghost predicate Counted()
      reads this
    {
      Shape(buffers, frontOffset) && pendingBytes == |Concat(Slices())| <= MAX_PENDING_WRITE_BYTES
    }

    /** What was sent, then what is queued, is what was enqueued. */
    ghost predicate Valid()
      reads this
    {
      Counted() && sent + Concat(Slices()) == enqueued
    }

    constructor ()
      ensures Valid() && buffers == [] && enqueued == []
    {
      buffers, frontOffset, pendingBytes, sent, enqueued := [], 0, 0, [], [];
    }

    /** One scattered send.  The socket takes the front of what it is offered. */
    method SendScattered(a: Answer) returns (count: nat)
      requires Counted()
      modifies this`sent
      ensures Counted() && count <= pendingBytes
      ensures count == Taken(a, Window(Slices(), MAX_SCATTER_BUFFERS))
      ensures sent == old(sent) + Concat(Slices())[..count]
    {
      var vectors := Gather(buffers, frontOffset);
      WindowIsFront(Slices(), MAX_SCATTER_BUFFERS);
      count := Taken(a, vectors);
      PrefixesAgree(Concat(vectors), Concat(Slices()), count);
      sent := sent + Concat(vectors)[..count];
    }

    /** `consume`, of bytes that were sent. */
    method Consume(bytes: nat)
      requires Counted() && bytes <= pendingBytes
      modifies this`buffers, this`frontOffset, this`pendingBytes
      ensures Counted() && Slices() == Consumed(old(Slices()), bytes)
      ensures Concat(Slices()) == Concat(old(Slices()))[bytes..]
    {
      ConsumedContent(Slices(), bytes);
      pendingBytes := pendingBytes - bytes;
      buffers, frontOffset := DropFront(buffers, frontOffset, bytes);
    }

    /** One turn of the flush loop: a send, and dropping what it took. */
    method SendOnce(a: Answer) returns (count: nat)
      requires Valid() && buffers != []
      modifies this`buffers, this`frontOffset, this`pendingBytes, this`sent
      ensures Valid() && pendingBytes == old(pendingBytes) - count
      ensures Stuck(buffers) <==> Stuck(old(buffers))
      ensures a.takes > 0 && !Stuck(old(buffers)) ==> count > 0
      ensures count == 0 ==> buffers == old(buffers) && frontOffset == old(frontOffset)
      ensures count == 0 <==> a.takes == 0 || Concat(Window(old(Slices()), MAX_SCATTER_BUFFERS)) == []
    {
      ghost var was, slices := sent, Slices();
      count := SendScattered(a);
      Turn(slices, a);
      QueuedStuck(buffers, frontOffset);
      if count > 0 {
        Consume(count);
        Sent(was, Concat(slices), count);
        QueuedStuck(buffers, frontOffset);
      } else {
        assert was + Concat(slices)[..0] == was;
      }
    }

    /** `flush`, against the answers the socket will give. */
    method Flush(wait: bool, answers: seq<Answer>) returns (r: Result, ghost used: nat)
      requires Valid()
      modifies this`buffers, this`frontOffset, this`pendingBytes, this`sent
      ensures Valid() && pendingBytes <= old(pendingBytes)
      ensures r.Drained? <==> buffers == []
      // every answer but the last lets it go on; the last ends it when the send took nothing, going by the error
      ensures used <= |answers| && (r.Unanswered? ==> used == |answers|)
      ensures forall i :: 0 <= i < (if r.Blocked? || r.Failed? then used - 1 else used) ==> GoesOn(answers[i], wait)
      ensures r.Blocked? || r.Failed? ==>
        && used > 0 && EndsWith(answers[used - 1].error, wait, r)
        && (answers[used - 1].takes == 0 || Concat(Window(Slices(), MAX_SCATTER_BUFFERS)) == [])
      // a stuck queue never drains, and any other does in at most one send a byte
      ensures Stuck(buffers) <==> Stuck(old(buffers))
      ensures AllTake(answers) && |answers| >= old(pendingBytes) ==> (r.Drained? <==> !Stuck(old(buffers)))
    {
      var next := 0;
      used := 0;
      while buffers != []
        invariant next == used <= |answers| && forall i :: 0 <= i < used ==> GoesOn(answers[i], wait)
        invariant Valid() && pendingBytes <= old(pendingBytes)
        invariant Stuck(buffers) <==> Stuck(old(buffers))
        invariant AllTake(answers) && !Stuck(old(buffers)) ==> pendingBytes + used <= old(pendingBytes)
        decreases |answers| - used
      {
        QueuedStuck(buffers, frontOffset);
        if next == |answers| {
          BytesLeft(Slices());
          return Unanswered, used;
        }
        var a := answers[next];
        next, used := next + 1, used + 1;
        var count := SendOnce(a);
        if count > 0 {
          continue;
        }
        if a.error.Interrupted? {
          continue;
        }
        if a.error.WouldBlock? {
          if !wait {
            return Blocked, used;
          }
          if a.error.waitFails {
            return Failed, used;
          }
          continue;
        }
        return Failed, used;
      }
      return Drained, used;
    }

    /** `enqueue`, which refuses bytes past the limit and else tries to send at once. */
    method Enqueue(bytes: seq<byte>, answers: seq<Answer>) returns (accepted: bool, r: Result)
      requires Valid()
      modifies this
      ensures Valid()
      ensures accepted <==> old(pendingBytes) + |bytes| <= MAX_PENDING_WRITE_BYTES
      ensures enqueued == if accepted then old(enqueued) + bytes else old(enqueued)
      ensures !accepted ==> buffers == old(buffers) && sent == old(sent) && pendingBytes == old(pendingBytes)
      ensures accepted ==> (r.Drained? <==> buffers == [])
      ensures accepted ==> (Stuck(buffers) <==> Stuck(old(buffers) + [bytes]))
    {
      r := Unanswered;
      if |bytes| > MAX_PENDING_WRITE_BYTES - pendingBytes {
        return false, r;
      }
      QueuedPush(buffers, frontOffset, bytes);
      Associative(sent, Concat(Slices()), bytes);
      pendingBytes := pendingBytes + |bytes|;
      buffers := buffers + [bytes];
      enqueued := enqueued + bytes;
      ghost var used;
      r, used := Flush(false, answers);
      return true, r;
    }
  }

  /** One turn keeps a queue stuck or free, and a free one sends if the socket takes anything. */
  lemma Turn(slices: seq<seq<byte>>, a: Answer)
    requires slices != []
    ensures
      var count := Taken(a, Window(slices, MAX_SCATTER_BUFFERS));
      && count <= |Concat(slices)| && (Stuck(Consumed(slices, count)) <==> Stuck(slices))
      && (a.takes > 0 && !Stuck(slices) ==> count > 0)
  {
    var count := Taken(a, Window(slices, MAX_SCATTER_BUFFERS));
    WindowIsFront(slices, MAX_SCATTER_BUFFERS);
    if Stuck(slices) {
      StaysStuck(slices, count, MAX_SCATTER_BUFFERS);
    } else {
      StaysFree(slices, count);
      FreeSends(slices);
    }
  }

  lemma BytesLeft(slices: seq<seq<byte>>)
    requires slices != []
    ensures !Stuck(slices) ==> Concat(slices) != []
  {
    if !Stuck(slices) {
      Holds(slices, |slices| - 1);
    }
  }
}
