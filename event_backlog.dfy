/**
 * The backlog of the event writer (mPendingWriteEventsQueue), as a reference
 * definition: a FIFO of event batches, what postEventsToMessageQueue writes
 * at once and appends, and what one iteration of handlePendingWrites takes
 * from the head batch.
 */
module EventBacklog {
  import opened SensorTypes

  /** The events of a backlog in delivery order: batch by batch, each in its own order. */
  function Flatten(backlog: seq<seq<Event>>): seq<Event>
  {
    if backlog == [] then []
    else Flatten(backlog[..|backlog| - 1]) + backlog[|backlog| - 1]
  }

  /** No batch in the backlog is empty. */
  predicate NoEmptyBatch(backlog: seq<seq<Event>>)
  {
    forall i :: 0 <= i < |backlog| ==> backlog[i] != []
  }

  /** Taking the head batch off the backlog takes its events off the front of the flattened order. */
  lemma {:induction false} FlattenCons(batch: seq<Event>, backlog: seq<seq<Event>>)
    ensures Flatten([batch] + backlog) == batch + Flatten(backlog)
    decreases |backlog|
  {
    if backlog == [] {
      assert [batch] + backlog == [batch];
      assert [batch][..0] == [];
    } else {
      var n := |backlog| - 1;
      assert ([batch] + backlog)[..n + 1] == [batch] + backlog[..n];
      FlattenCons(batch, backlog[..n]);
    }
  }

  /**
   * How many events postEventsToMessageQueue writes into the queue at once:
   * as many as fit, but only when the backlog is empty, something fits, and
   * the write succeeds; otherwise none.
   */
  function ImmediateWriteCount(backlogEmpty: bool, eventCount: nat, availableToWrite: nat, writeOk: bool): (n: nat)
    ensures n <= eventCount && n <= availableToWrite
    ensures n > 0 ==> backlogEmpty && writeOk
    ensures backlogEmpty && writeOk ==> n == if eventCount <= availableToWrite then eventCount else availableToWrite
  {
    var fits := if eventCount <= availableToWrite then eventCount else availableToWrite;
    if backlogEmpty && fits > 0 && writeOk then fits else 0
  }

  /** The backlog after a post that wrote the first n events: the rest, if any, as one new tail batch. */
  function AppendRemainder(backlog: seq<seq<Event>>, events: seq<Event>, n: nat): (r: seq<seq<Event>>)
    requires n <= |events|
    ensures Flatten(r) == Flatten(backlog) + events[n..]
    ensures |backlog| <= |r| <= |backlog| + 1 && r[..|backlog|] == backlog
  {
    if n < |events| then backlog + [events[n..]] else backlog
  }

  /**
   * A post keeps submission order: the events written at once, followed by
   * the backlog, are the old backlog followed by the whole batch (the
   * immediate write only happens on an empty backlog), earlier batches are
   * untouched, and no empty batch is ever queued.
   */
  lemma PostKeepsOrder(backlog: seq<seq<Event>>, events: seq<Event>, availableToWrite: nat, writeOk: bool)
    requires NoEmptyBatch(backlog)
    ensures var n := ImmediateWriteCount(backlog == [], |events|, availableToWrite, writeOk);
            var after := AppendRemainder(backlog, events, n);
            && events[..n] + Flatten(after) == Flatten(backlog) + events
            && after[..|backlog|] == backlog
            && NoEmptyBatch(after)
  {
    var n := ImmediateWriteCount(backlog == [], |events|, availableToWrite, writeOk);
    AppendRemainderNoEmpty(backlog, events, n);
    if backlog == [] {
      assert Flatten(AppendRemainder(backlog, events, n)) == events[n..];
      WrittenThenRest(events, n);
    } else {
      assert events[..n] == [] && events[n..] == events;
    }
  }

  /** Appending the rest of a post queues no empty batch. */
  lemma AppendRemainderNoEmpty(backlog: seq<seq<Event>>, events: seq<Event>, n: nat)
    requires n <= |events| && NoEmptyBatch(backlog)
    ensures NoEmptyBatch(AppendRemainder(backlog, events, n))
  {
    if n < |events| {
      var after := backlog + [events[n..]];
      assert forall i :: 0 <= i < |backlog| ==> after[i] == backlog[i];
    }
  }

  /** On an empty backlog the events written at once, then the queued rest, are the whole post. */
  lemma WrittenThenRest(events: seq<Event>, n: nat)
    requires n <= |events|
    ensures events[..n] + events[n..] == [] + events
  {
    assert events[..n] + events[n..] == events;
  }

  /**
   * The same, for the account the writer keeps: events handed to the queue
   * followed by the backlog. A post adds its batch at the end of that account.
   */
  lemma PostExtendsAccount(handedOff: seq<Event>, backlog: seq<seq<Event>>, events: seq<Event>,
                           availableToWrite: nat, writeOk: bool)
    requires NoEmptyBatch(backlog)
    ensures var n := ImmediateWriteCount(backlog == [], |events|, availableToWrite, writeOk);
            var after := AppendRemainder(backlog, events, n);
            && (handedOff + events[..n]) + Flatten(after) == (handedOff + Flatten(backlog)) + events
            && NoEmptyBatch(after)
  {
    PostKeepsOrder(backlog, events, availableToWrite, writeOk);
    var n := ImmediateWriteCount(backlog == [], |events|, availableToWrite, writeOk);
    Reassociate(handedOff, events[..n], Flatten(AppendRemainder(backlog, events, n)));
    Reassociate(handedOff, Flatten(backlog), events);
  }

  /** Concatenation regroups freely. */
  lemma Reassociate(handedOff: seq<Event>, a: seq<Event>, b: seq<Event>)
    ensures (handedOff + a) + b == handedOff + (a + b)
  {
  }

  /** Splitting a batch at n and putting it back together before the rest of the events. */
  lemma SplitBatch(batch: seq<Event>, n: nat, rest: seq<Event>)
    requires n <= |batch|
    ensures batch[..n] + (batch[n..] + rest) == batch + rest
  {
    assert batch[..n] + batch[n..] == batch;
    assert batch[..n] + (batch[n..] + rest) == (batch[..n] + batch[n..]) + rest;
  }

  /** What one iteration of the drain loop does to the backlog. */
  datatype Drain = Drain(attempted: seq<Event>, rest: seq<seq<Event>>)

  /**
   * One drain iteration: attempt the first min(|head|, quantumCount) events
   * of the head batch; if the head holds more than quantumCount events the
   * written prefix is erased, otherwise the whole head batch is popped.
   */
  function DrainHead(backlog: seq<seq<Event>>, quantumCount: nat): (d: Drain)
    requires backlog != []
    ensures |d.attempted| <= quantumCount && |d.attempted| <= |backlog[0]|
    ensures d.attempted == backlog[0][..|d.attempted|]
    ensures |d.rest| <= |backlog|
  {
    var head := backlog[0];
    var n := if |head| <= quantumCount then |head| else quantumCount;
    Drain(head[..n], if |head| > quantumCount then [head[quantumCount..]] + backlog[1..] else backlog[1..])
  }

  /**
   * A drain iteration keeps order: the attempted events followed by the new
   * backlog are exactly the old backlog, and the attempt is the first
   * min(|head|, quantumCount) events; with a non-zero quantum the backlog
   * shrinks.
   */
  lemma DrainKeepsOrder(backlog: seq<seq<Event>>, quantumCount: nat)
    requires backlog != []
    ensures var d := DrainHead(backlog, quantumCount);
            && d.attempted + Flatten(d.rest) == Flatten(backlog)
            && |d.attempted| == (if |backlog[0]| <= quantumCount then |backlog[0]| else quantumCount)
            && (quantumCount > 0 && backlog[0] != [] ==> |Flatten(d.rest)| < |Flatten(backlog)|)
  {
    var head := backlog[0];
    var tail := backlog[1..];
    var d := DrainHead(backlog, quantumCount);
    assert backlog == [head] + tail;
    FlattenCons(head, tail);
    var rest := Flatten(tail);
    assert Flatten(backlog) == head + rest;
    if |head| > quantumCount {
      assert d.rest == [head[quantumCount..]] + tail;
      FlattenCons(head[quantumCount..], tail);
      SplitBatch(head, quantumCount, rest);
    } else {
      assert d.rest == tail;
      assert d.attempted == head;
    }
  }

  /**
   * A drain iteration touches only the head batch: the batches behind it are
   * kept as they were, and no empty batch appears.
   */
  lemma DrainKeepsTail(backlog: seq<seq<Event>>, quantumCount: nat)
    requires backlog != [] && NoEmptyBatch(backlog)
    ensures var d := DrainHead(backlog, quantumCount);
            && d.rest[|d.rest| - |backlog| + 1..] == backlog[1..]
            && NoEmptyBatch(d.rest)
  {
    var d := DrainHead(backlog, quantumCount);
    if |backlog[0]| > quantumCount {
      assert d.rest[1..] == backlog[1..];
    } else {
      assert d.rest[0..] == backlog[1..];
    }
  }

  /**
   * The same, for the account the writer keeps: the attempted events move
   * from the front of the backlog to the end of what was handed to the
   * queue, and the account as a whole is unchanged.
   */
  lemma DrainKeepsAccount(handedOff: seq<Event>, backlog: seq<seq<Event>>, quantumCount: nat)
    requires backlog != [] && NoEmptyBatch(backlog)
    ensures var d := DrainHead(backlog, quantumCount);
            && (handedOff + d.attempted) + Flatten(d.rest) == handedOff + Flatten(backlog)
            && NoEmptyBatch(d.rest)
  {
    var d := DrainHead(backlog, quantumCount);
    DrainKeepsOrder(backlog, quantumCount);
    DrainKeepsTail(backlog, quantumCount);
    Reassociate(handedOff, d.attempted, Flatten(d.rest));
  }
}
