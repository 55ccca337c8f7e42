/** Gap accounting of the JetStream consumer: every sequence number is delivered or in exactly one gap. */
module JetStream {
  import opened Common

  datatype Message = Message(subject: string, sequence: nat)

  datatype SequenceGap = SequenceGap(subject: string, expectedSequence: nat, observedSequence: nat)

  datatype ConsumerStats = ConsumerStats(deliveries: nat, duplicates: nat, gaps: seq<SequenceGap>, lastSequence: Option<nat>)

  const NoStats := ConsumerStats(0, 0, [], None)

  predicate IsDuplicate(stats: ConsumerStats, message: Message) {
    stats.lastSequence.Some? && message.sequence <= stats.lastSequence.value
  }

  /** What reading one message does to the statistics. */
  function Read(stats: ConsumerStats, message: Message): ConsumerStats {
    if IsDuplicate(stats, message) then stats.(duplicates := stats.duplicates + 1)
    else
      var gaps :=
        if stats.lastSequence.Some? && message.sequence > stats.lastSequence.value + 1 then
          stats.gaps + [SequenceGap(message.subject, stats.lastSequence.value + 1, message.sequence)]
        else stats.gaps;
      ConsumerStats(stats.deliveries + 1, stats.duplicates, gaps, Some(message.sequence))
  }

  /** The statistics after a stream of messages, from the start. */
  function After(messages: seq<Message>): ConsumerStats {
    if messages == [] then NoStats else Read(After(messages[..|messages| - 1]), messages[|messages| - 1])
  }

  /** The sequence numbers delivered. */
  function Delivered(messages: seq<Message>): seq<nat> {
    if messages == [] then []
    else
      var init, last := messages[..|messages| - 1], messages[|messages| - 1];
      if IsDuplicate(After(init), last) then Delivered(init) else Delivered(init) + [last.sequence]
  }

  // ---------------------------------------------------------------------
  // The consumer
  // ---------------------------------------------------------------------

  class JetStreamConsumer {
    var deliveries: nat
    var duplicates: nat
    var gaps: seq<SequenceGap>
    var lastSequence: Option<nat>
    ghost var history: seq<Message>

    constructor ()
      ensures Valid() && Stats() == NoStats && history == []
    {
      deliveries, duplicates, gaps, lastSequence, history := 0, 0, [], None, [];
    }

    function Stats(): ConsumerStats
      reads this
    {
      ConsumerStats(deliveries, duplicates, gaps, lastSequence)
    }

    /** The statistics are those of everything read so far, in whatever calls it was read. */
    ghost predicate Valid()
      reads this
    {
      Stats() == After(history)
    }

    /**
     * Reads messages until the stream times out or the caller, who counts after each delivery, has
     * `limit` of them; so at least one is taken. The statistics carry over to the next call.
     */
    method Subscribe(messages: seq<Message>, limit: nat) returns (delivered: seq<nat>, read: nat)
      requires Valid()
      modifies this
      ensures read <= |messages| && history == old(history) + messages[..read]
      ensures Valid()
      ensures Delivered(history) == Delivered(old(history)) + delivered
      ensures var enough := if limit == 0 then 1 else limit;
              |delivered| <= enough && (|delivered| < enough ==> read == |messages|)
    {
      hide After, Delivered;
      delivered, read := [], 0;
      assert old(history) + messages[..0] == old(history);
      while read < |messages|
        invariant read <= |messages| && (|delivered| < limit || delivered == [])
        invariant history == old(history) + messages[..read]
        invariant Stats() == After(history)
        invariant Delivered(history) == Delivered(old(history)) + delivered
      {
        var message := messages[read];
        OneMoreMessage(history, message);
        assert old(history) + messages[..read + 1] == history + [message];
        history := history + [message];
        read := read + 1;
        if lastSequence.Some? && message.sequence <= lastSequence.value {
          duplicates := duplicates + 1;
          continue;
        }
        if lastSequence.Some? && message.sequence > lastSequence.value + 1 {
          gaps := gaps + [SequenceGap(message.subject, lastSequence.value + 1, message.sequence)];
        }
        lastSequence := Some(message.sequence);
        deliveries := deliveries + 1;
        delivered := delivered + [message.sequence];
        if |delivered| >= limit {
          return;
        }
      }
    }
  }

  lemma OneMoreMessage(messages: seq<Message>, message: Message)
    ensures After(messages + [message]) == Read(After(messages), message)
    ensures Delivered(messages + [message]) ==
            if IsDuplicate(After(messages), message) then Delivered(messages)
            else Delivered(messages) + [message.sequence]
  {
    assert (messages + [message])[..|messages|] == messages;
  }

  // ---------------------------------------------------------------------
  // Exact bookkeeping
  // ---------------------------------------------------------------------

  function GapSize(gap: SequenceGap): int {
    gap.observedSequence - gap.expectedSequence
  }

  function Missing(gaps: seq<SequenceGap>): int {
    if gaps == [] then 0 else Missing(gaps[..|gaps| - 1]) + GapSize(gaps[|gaps| - 1])
  }

  predicate InGap(gap: SequenceGap, n: nat) {
    gap.expectedSequence <= n < gap.observedSequence
  }

  ghost predicate Increasing(numbers: seq<nat>) {
    forall i, j | 0 <= i < j < |numbers| :: numbers[i] < numbers[j]
  }

  /** Gaps are nonempty and lie one after the other. */
  ghost predicate GapsInOrder(gaps: seq<SequenceGap>) {
    && (forall i | 0 <= i < |gaps| :: gaps[i].expectedSequence < gaps[i].observedSequence)
    && (forall i, j | 0 <= i < j < |gaps| :: gaps[i].observedSequence < gaps[j].expectedSequence)
  }

  ghost predicate Skipped(gaps: seq<SequenceGap>, n: nat) {
    exists i | 0 <= i < |gaps| :: InGap(gaps[i], n)
  }

  /** A number between the first and the last delivery is delivered, or lies in a gap, and not both. */
  ghost predicate Accounted(delivered: seq<nat>, gaps: seq<SequenceGap>) {
    forall n: nat | delivered != [] && delivered[0] <= n <= delivered[|delivered| - 1] ::
      n in delivered <==> !Skipped(gaps, n)
  }

  /** The counters of a stream of `read` messages. */
  ghost predicate Counted(stats: ConsumerStats, delivered: seq<nat>, read: nat) {
    && stats.deliveries == |delivered|
    && stats.deliveries + stats.duplicates == read
    && stats.lastSequence == (if delivered == [] then None else Some(delivered[|delivered| - 1]))
    && (delivered == [] ==> stats.gaps == [])
    && (delivered != [] ==>
          delivered[|delivered| - 1] + 1 == delivered[0] + stats.deliveries + Missing(stats.gaps))
  }

  /** The gaps lie between the first and the last delivery. */
  ghost predicate GapsInside(delivered: seq<nat>, gaps: seq<SequenceGap>) {
    forall i | 0 <= i < |gaps| ::
      delivered != [] && delivered[0] < gaps[i].expectedSequence && gaps[i].observedSequence <= delivered[|delivered| - 1]
  }

  /** The whole account of a stream. */
  ghost predicate Balanced(stats: ConsumerStats, delivered: seq<nat>, read: nat) {
    && Counted(stats, delivered, read) && Increasing(delivered) && GapsInOrder(stats.gaps)
    && GapsInside(delivered, stats.gaps) && Accounted(delivered, stats.gaps)
  }

  lemma MissingNext(gaps: seq<SequenceGap>, gap: SequenceGap)
    ensures Missing(gaps + [gap]) == Missing(gaps) + GapSize(gap)
  {
    assert (gaps + [gap])[..|gaps|] == gaps;
  }

  lemma SkippedNext(gaps: seq<SequenceGap>, gap: SequenceGap, n: nat)
    ensures Skipped(gaps + [gap], n) <==> Skipped(gaps, n) || InGap(gap, n)
  {
    hide InGap;
    if i :| 0 <= i < |gaps| && InGap(gaps[i], n) {
      assert InGap((gaps + [gap])[i], n);
    }
    if InGap(gap, n) {
      assert InGap((gaps + [gap])[|gaps|], n);
    }
  }

  /** A delivery moves the account on: the numbers jumped over are the new gap. */
  lemma DeliveryKeepsBalance(stats: ConsumerStats, delivered: seq<nat>, read: nat, message: Message)
    requires Balanced(stats, delivered, read) && !IsDuplicate(stats, message)
    ensures Balanced(Read(stats, message), delivered + [message.sequence], read + 1)
  {
    var after, longer := Read(stats, message), delivered + [message.sequence];
    DeliveryCounts(stats, delivered, read, message);
    DeliveryAccounts(stats, delivered, read, message);
    hide Counted, Accounted;
    assert stats.lastSequence == (if delivered == [] then None else Some(delivered[|delivered| - 1])) by {
      LastIsLast(stats, delivered, read);
    }
    assert Increasing(longer);
    assert GapsInOrder(after.gaps);
    assert GapsInside(longer, after.gaps);
  }

  lemma LastIsLast(stats: ConsumerStats, delivered: seq<nat>, read: nat)
    requires Counted(stats, delivered, read)
    ensures stats.lastSequence == if delivered == [] then None else Some(delivered[|delivered| - 1])
    ensures delivered == [] ==> stats.gaps == []
  {
  }

  lemma DeliveryCounts(stats: ConsumerStats, delivered: seq<nat>, read: nat, message: Message)
    requires Counted(stats, delivered, read) && !IsDuplicate(stats, message)
    ensures Counted(Read(stats, message), delivered + [message.sequence], read + 1)
  {
    if stats.lastSequence.Some? {
      MissingNext(stats.gaps, SequenceGap(message.subject, stats.lastSequence.value + 1, message.sequence));
    }
  }

  lemma DeliveryAccounts(stats: ConsumerStats, delivered: seq<nat>, read: nat, message: Message)
    requires Balanced(stats, delivered, read) && !IsDuplicate(stats, message)
    ensures Accounted(delivered + [message.sequence], Read(stats, message).gaps)
  {
    LastIsLast(stats, delivered, read);
    hide Counted, GapsInOrder, Skipped, InGap;
    var after, longer := Read(stats, message).gaps, delivered + [message.sequence];
    forall n: nat | longer[0] <= n <= message.sequence ensures n in longer <==> !Skipped(after, n) {
      if delivered == [] {
        NothingSkipped(n);
      } else {
        NumberAccounted(stats, delivered, message, n);
      }
    }
  }

  lemma NothingSkipped(n: nat)
    ensures !Skipped([], n)
  {
  }

  lemma NumberAccounted(stats: ConsumerStats, delivered: seq<nat>, message: Message, n: nat)
    requires delivered != [] && stats.lastSequence == Some(delivered[|delivered| - 1])
    requires message.sequence > delivered[|delivered| - 1] && delivered[0] <= n <= message.sequence
    requires Increasing(delivered) && GapsInside(delivered, stats.gaps) && Accounted(delivered, stats.gaps)
    ensures n in delivered + [message.sequence] <==> !Skipped(Read(stats, message).gaps, n)
  {
    var last := delivered[|delivered| - 1];
    if message.sequence > last + 1 {
      SkippedNext(stats.gaps, SequenceGap(message.subject, last + 1, message.sequence), n);
    }
    if n > last {
      assert !Skipped(stats.gaps, n);
      assert n !in delivered;
    }
  }

  /** Every stream is accounted for exactly, whatever it repeats or leaves out. */
  lemma {:induction false} StreamIsBalanced(messages: seq<Message>)
    ensures Balanced(After(messages), Delivered(messages), |messages|)
  {
    hide Balanced, Read;
    if messages == [] {
      EmptyIsBalanced();
    } else {
      var init, last := messages[..|messages| - 1], messages[|messages| - 1];
      StreamIsBalanced(init);
      if IsDuplicate(After(init), last) {
        DuplicateKeepsBalance(After(init), Delivered(init), |init|, last);
      } else {
        DeliveryKeepsBalance(After(init), Delivered(init), |init|, last);
      }
    }
  }

  lemma EmptyIsBalanced()
    ensures Balanced(NoStats, [], 0)
  {
  }

  lemma DuplicateKeepsBalance(stats: ConsumerStats, delivered: seq<nat>, read: nat, message: Message)
    requires Balanced(stats, delivered, read) && IsDuplicate(stats, message)
    ensures Balanced(Read(stats, message), delivered, read + 1)
  {
  }

  /** Each number from the first delivery to the last is delivered, or lies in exactly one gap. */
  lemma EveryNumberOnce(messages: seq<Message>, n: nat)
    requires var delivered := Delivered(messages);
             delivered != [] && delivered[0] <= n <= delivered[|delivered| - 1]
    ensures var gaps := After(messages).gaps;
            && (n in Delivered(messages) <==> forall i | 0 <= i < |gaps| :: !InGap(gaps[i], n))
            && (forall i, j | 0 <= i < j < |gaps| :: !(InGap(gaps[i], n) && InGap(gaps[j], n)))
  {
    StreamIsBalanced(messages);
    hide After, Delivered, Counted, GapsInside;
    assert n in Delivered(messages) <==> !Skipped(After(messages).gaps, n);
  }

  /** The last delivered number is the largest number read. */
  lemma {:induction false} LastIsLargest(messages: seq<Message>)
    ensures After(messages).lastSequence == None <==> messages == []
    ensures messages != [] ==>
              var last := After(messages).lastSequence.value;
              && (forall message <- messages :: message.sequence <= last)
              && (exists message <- messages :: message.sequence == last)
  {
    if messages != [] {
      var init, last := messages[..|messages| - 1], messages[|messages| - 1];
      LastIsLargest(init);
      assert messages == init + [last];
      if IsDuplicate(After(init), last) {
        var message :| message in init && message.sequence == After(init).lastSequence.value;
        assert message in messages;
      } else {
        assert last in messages;
      }
    }
  }

  /** A message is delivered exactly when its number is larger than every number read before it. */
  lemma DeliveredExactlyNewMaxima(messages: seq<Message>, message: Message)
    ensures Delivered(messages + [message]) ==
            if forall earlier <- messages :: earlier.sequence < message.sequence
            then Delivered(messages) + [message.sequence] else Delivered(messages)
  {
    OneMoreMessage(messages, message);
    LastIsLargest(messages);
    hide After, Delivered;
  }
}
