/**
 * The server's in-memory message store: an append-only array, an event that
 * announces each new message, and a one-shot subscription that waits for the
 * next message addressed to a recipient or for its timeout.
 */
module MessageStore {
  import opened Wrappers
  import opened ChatTypes

  /** The record `sendMessage` stores: the message's fields and `id: Date.now()`. */
  function Stored(message: Outgoing, now: nat): (r: Record)
    ensures r.id == Clock(now)
    ensures Outgoing(r.sender, r.recipient, r.plainText, r.cipherText, r.iv) == message
  {
    Record(Clock(now), message.sender, message.recipient, message.plainText, message.cipherText, message.iv)
  }

  class Store {
    /** The module-level `messages` array. */
    var messages: seq<Record>
    /** The payloads of the 'newMessage' events emitted so far, in order. */
    var emitted: seq<Record>

    constructor()
      ensures messages == [] && emitted == []
    {
      messages := [];
      emitted := [];
    }

    /**
     * `sendMessage`: the record is pushed at the end, announced, and returned.
     * The id is the clock reading `now`; nothing checks that it is unused.
     */
    method SendMessage(message: Outgoing, now: nat) returns (r: Record)
      modifies this
      ensures r == Stored(message, now)
      ensures messages == old(messages) + [r]
      ensures emitted == old(emitted) + [r]
    {
      r := Stored(message, now);
      messages := messages + [r];
      emitted := emitted + [r];
    }

    /** `getMessages`: every stored record, in append order. */
    method GetMessages() returns (r: seq<Record>)
      ensures r == messages
    {
      r := messages;
    }
  }

  /** Two sends in the same millisecond store two records with one id. */
  lemma SameClockSameId(a: Outgoing, b: Outgoing, now: nat)
    ensures Stored(a, now).id == Stored(b, now).id
    ensures a != b ==> Stored(a, now) != Stored(b, now)
  {
  }

  /** What a pending subscription can observe: a new message, or its 30 s timer firing. */
  datatype Event = NewMessage(message: Record) | TimeoutElapsed

  /** The state of the Promise `subscribeToMessages` returns. */
  datatype Resolution = Pending | Resolved(value: Option<Record>)

  /**
   * `subscribeToMessages(recipientName)` over the events that follow the call:
   * it resolves with the first message addressed to `recipientName`, or with
   * `null` when the timeout comes first; until then it is pending.
   */
  function Subscribe(recipientName: string, events: seq<Event>): (r: Resolution)
    ensures r.Resolved? && r.value.Some? ==> r.value.value.recipient == recipientName && NewMessage(r.value.value) in events
    ensures r.Resolved? && r.value.None? ==> TimeoutElapsed in events
    decreases |events|
  {
    if events == [] then Pending
    else match events[0]
      case TimeoutElapsed => Resolved(None)
      case NewMessage(m) =>
        if m.recipient == recipientName then Resolved(Some(m)) else Subscribe(recipientName, events[1..])
  }

  /** An event the listener passes over: a message for someone else. */
  predicate Skipped(recipientName: string, e: Event) {
    e.NewMessage? && e.message.recipient != recipientName
  }

  /** Index `i` holds the first event the listener does not pass over. */
  predicate DecidedAt(recipientName: string, events: seq<Event>, i: nat) {
    && i < |events| && !Skipped(recipientName, events[i])
    && forall j :: 0 <= j < i ==> Skipped(recipientName, events[j])
  }

  /** What the deciding event resolves the Promise with: the message, or `null` for the timeout. */
  function Outcome(e: Event): Option<Record> {
    if e.NewMessage? then Some(e.message) else None
  }

  /**
   * A resolved subscription was decided by its first event that is not a
   * message for someone else: a message addressed to the subscriber, which it
   * resolves with, or the timeout, which resolves `null`.
   */
  lemma {:induction false} ResolvedMessageMatches(recipientName: string, events: seq<Event>)
    requires Subscribe(recipientName, events).Resolved?
    ensures exists i: nat :: DecidedAt(recipientName, events, i) && Subscribe(recipientName, events).value == Outcome(events[i])
    ensures Subscribe(recipientName, events).value.Some? ==>
      Subscribe(recipientName, events).value.value.recipient == recipientName
    decreases |events|
  {
    if !Skipped(recipientName, events[0]) {
      assert DecidedAt(recipientName, events, 0);
    } else {
      var tail := events[1..];
      ResolvedMessageMatches(recipientName, tail);
      var i: nat :| DecidedAt(recipientName, tail, i) && Subscribe(recipientName, tail).value == Outcome(tail[i]);
      assert events[i + 1] == tail[i];
      forall j | 0 <= j < i + 1 ensures Skipped(recipientName, events[j]) {
        if j > 0 { assert events[j] == tail[j - 1]; }
      }
      assert DecidedAt(recipientName, events, i + 1);
    }
  }

  /**
   * Conversely, the first event that is not a message for someone else decides:
   * a message for the subscriber resolves with it, the timeout with `null`.
   */
  lemma {:induction false} FirstDecisiveEventResolves(recipientName: string, events: seq<Event>, i: nat)
    requires i < |events| && !Skipped(recipientName, events[i])
    requires forall j :: 0 <= j < i ==> Skipped(recipientName, events[j])
    ensures Subscribe(recipientName, events) ==
      Resolved(if events[i].NewMessage? then Some(events[i].message) else None)
    decreases i
  {
    if i > 0 {
      FirstDecisiveEventResolves(recipientName, events[1..], i - 1);
    }
  }

  /** The subscription stays pending exactly while every event is a message for someone else. */
  lemma {:induction false} PendingWhileAllSkipped(recipientName: string, events: seq<Event>)
    ensures Subscribe(recipientName, events) == Pending <==>
      forall j :: 0 <= j < |events| ==> Skipped(recipientName, events[j])
    decreases |events|
  {
    if events != [] {
      PendingWhileAllSkipped(recipientName, events[1..]);
      if Skipped(recipientName, events[0]) {
        forall j | 0 <= j < |events| && (forall k :: 0 <= k < |events[1..]| ==> Skipped(recipientName, events[1..][k]))
          ensures Skipped(recipientName, events[j])
        {
          if j > 0 { assert events[j] == events[1..][j - 1]; }
        }
      }
    }
  }

  /**
   * The Promise resolves at most once: after it has resolved, later events
   * (the listener is gone, a late timer's `resolve(null)` is ignored) change nothing.
   */
  lemma {:induction false} ResolvesAtMostOnce(recipientName: string, events: seq<Event>, later: seq<Event>)
    requires Subscribe(recipientName, events).Resolved?
    ensures Subscribe(recipientName, events + later) == Subscribe(recipientName, events)
    decreases |events|
  {
    assert (events + later)[0] == events[0];
    if Skipped(recipientName, events[0]) {
      assert (events + later)[1..] == events[1..] + later;
      ResolvesAtMostOnce(recipientName, events[1..], later);
    }
  }

  /** The events a subscription sees when the store announces `sent` and no timer fires. */
  function Announcements(sent: seq<Record>): (e: seq<Event>)
    ensures |e| == |sent| && forall i :: 0 <= i < |e| ==> e[i] == NewMessage(sent[i])
  {
    seq(|sent|, i requires 0 <= i < |sent| => NewMessage(sent[i]))
  }

  /** A message the store announces to a waiting subscriber resolves it, unless an earlier one did. */
  lemma SendResolvesWaitingSubscriber(recipientName: string, before: seq<Record>, m: Record)
    requires Subscribe(recipientName, Announcements(before)) == Pending
    requires m.recipient == recipientName
    ensures Subscribe(recipientName, Announcements(before + [m])) == Resolved(Some(m))
  {
    var e := Announcements(before + [m]);
    PendingWhileAllSkipped(recipientName, Announcements(before));
    forall j | 0 <= j < |before| ensures Skipped(recipientName, e[j]) {
      assert e[j] == Announcements(before)[j];
    }
    FirstDecisiveEventResolves(recipientName, e, |before|);
  }
}
