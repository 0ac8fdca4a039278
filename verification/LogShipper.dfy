/** The batching log destination of src/config/logger.ts. */
module LogShipper {
  import opened Common
  import opened Text

  const BATCH_SIZE := 50

  ghost function Flatten(batches: seq<seq<string>>): seq<string> {
    if batches == [] then [] else Flatten(batches[..|batches| - 1]) + batches[|batches| - 1]
  }

  lemma FlattenAppend(batches: seq<seq<string>>, batch: seq<string>)
    ensures Flatten(batches + [batch]) == Flatten(batches) + batch
  {
    assert (batches + [batch])[..|batches|] == batches;
  }

  class HttpLogShipper {
    var buffer: seq<string>
    var flushTimeout: Option<nat>
    /** The event loop's side: timers that will fire unless cleared, and the next timer id. */
    var pending: set<nat>
    var nextTimer: nat
    /** Batches handed to the HTTP client, oldest first. */
    var sent: seq<seq<string>>
    /** Every line written so far, trimmed. */
    ghost var lines: seq<string>

    constructor ()
      ensures Valid() && lines == [] && sent == []
    {
      buffer, flushTimeout, pending, nextTimer, sent, lines := [], None, {}, 0, [], [];
    }

    /**
     * Between calls: nothing lost, repeated or reordered; batches of 1 to 50 lines and at most 49
     * waiting; the one pending timer is the recorded one, and there is one exactly when lines wait.
     */
    ghost predicate Valid()
      reads this
    {
      && Flatten(sent) + buffer == lines
      && (forall b :: b in sent ==> 1 <= |b| <= BATCH_SIZE)
      && |buffer| < BATCH_SIZE
      && pending == (if flushTimeout.Some? then {flushTimeout.value} else {})
      && (flushTimeout.Some? <==> buffer != [])
      && forall id :: id in pending ==> id < nextTimer
    }

    method Flush()
      requires Flatten(sent) + buffer == lines && |buffer| <= BATCH_SIZE
      requires forall b :: b in sent ==> 1 <= |b| <= BATCH_SIZE
      modifies this`buffer, this`flushTimeout, this`sent
      ensures buffer == [] && Flatten(sent) + buffer == lines && forall b :: b in sent ==> 1 <= |b| <= BATCH_SIZE
      ensures sent == if old(buffer) == [] then old(sent) else old(sent) + [old(buffer)]
      ensures flushTimeout == if old(buffer) == [] then old(flushTimeout) else None
    {
      hide Flatten;
      if |buffer| == 0 {
        return;
      }
      var batch := buffer;
      buffer := [];
      flushTimeout := None;
      FlattenAppend(sent, batch);
      assert Flatten(sent) + batch == Flatten(sent) + batch + [];
      sent := sent + [batch];
    }

    /** The stream's `write`. */
    method Write(chunk: string)
      requires Valid()
      modifies this
      ensures Valid() && lines == old(lines) + [Trim(chunk)]
      ensures sent == if |old(buffer)| + 1 < 50 then old(sent) else old(sent) + [old(buffer) + [Trim(chunk)]]
    {
      hide Trim, Flatten;
      var line := Trim(chunk);
      lines := lines + [line];
      assert Flatten(sent) + (buffer + [line]) == Flatten(sent) + buffer + [line];
      buffer := buffer + [line];
      if |buffer| >= BATCH_SIZE {
        if flushTimeout.Some? {
          pending := pending - {flushTimeout.value};
        }
        Flush();
      } else if flushTimeout.None? {
        flushTimeout := Some(nextTimer);
        pending := pending + {nextTimer};
        nextTimer := nextTimer + 1;
      }
    }

    /** The event loop fires a pending timer. */
    method Fire(id: nat)
      requires Valid() && id in pending
      modifies this
      ensures Valid() && lines == old(lines)
      ensures buffer == [] && pending == {} && sent == old(sent) + [old(buffer)]
    {
      hide Flatten;
      pending := pending - {id};
      Flush();
    }
  }

  // ---- Interleavings ----

  datatype Event = Write(chunk: string) | TimerDue

  /** The trimmed lines of the writes in `events`, in order. */
  ghost function LinesOf(events: seq<Event>): seq<string> {
    if events == [] then [] else
      var e := events[|events| - 1];
      LinesOf(events[..|events| - 1]) + if e.Write? then [Trim(e.chunk)] else []
  }

  lemma NoLines(events: seq<Event>)
    requires events == []
    ensures LinesOf(events) == []
  {
  }

  lemma LinesOfNext(events: seq<Event>, i: nat)
    requires i < |events|
    ensures LinesOf(events[..i + 1]) == LinesOf(events[..i]) + if events[i].Write? then [Trim(events[i].chunk)] else []
    ensures events[i].TimerDue? ==> LinesOf(events[..i + 1]) == LinesOf(events[..i])
  {
    assert events[..i + 1][..i] == events[..i];
  }

  /** Any interleaving of writes with the firing of whatever timer is pending ships every line once, in order. */
  method Replay(events: seq<Event>) returns (sent: seq<seq<string>>, waiting: seq<string>)
    ensures Flatten(sent) + waiting == LinesOf(events)
    ensures |waiting| <= 49 && forall b :: b in sent ==> 1 <= |b| <= 50
    ensures events != [] && events[|events| - 1].TimerDue? ==> waiting == []
  {
    hide LinesOf, Flatten, Trim;
    var shipper := new HttpLogShipper();
    NoLines(events[..0]);
    for i := 0 to |events|
      invariant fresh(shipper) && shipper.Valid() && shipper.lines == LinesOf(events[..i])
      invariant i > 0 && events[i - 1].TimerDue? ==> shipper.buffer == []
    {
      LinesOfNext(events, i);
      match events[i]
      case Write(chunk) =>
        shipper.Write(chunk);
      case TimerDue =>
        if shipper.flushTimeout.Some? {
          shipper.Fire(shipper.flushTimeout.value);
        }
    }
    assert events[..|events|] == events;
    sent, waiting := shipper.sent, shipper.buffer;
  }
}
