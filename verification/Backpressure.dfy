/** What a slow subscriber can count on: its queue is always the newest unread part of what was published. */
module Backpressure {
  import opened RingBuffer

  datatype Event<T> = Published(x: T) | Drained

  /**
   * A subscriber's queue over a history of publishes and drains. `taken` are the positions, in `published`, of
   * the items drained so far; `overflowed` tells whether a publish ever met a full queue.
   */
  datatype History<T> = History(queue: seq<T>, published: seq<T>, taken: seq<nat>, overflowed: bool)

  function Full<T>(queue: seq<T>, maxsize: nat): bool {
    maxsize > 0 && |queue| >= maxsize
  }

  function After<T>(maxsize: nat, events: seq<Event<T>>): History<T> {
    if events == [] then History([], [], [], false) else
      var h := After(maxsize, events[..|events| - 1]);
      match events[|events| - 1]
      case Published(x) =>
        History(Offer(h.queue, maxsize, x), h.published + [x], h.taken, h.overflowed || Full(h.queue, maxsize))
      case Drained =>
        if h.queue == [] || |h.published| < |h.queue| then h
        else h.(queue := h.queue[1..], taken := h.taken + [|h.published| - |h.queue|])
  }

  /** The items drained, in order. */
  function DrainedItems<T>(h: History<T>): seq<T>
    requires forall i :: 0 <= i < |h.taken| ==> h.taken[i] < |h.published|
  {
    seq(|h.taken|, i requires 0 <= i < |h.taken| => h.published[h.taken[i]])
  }

  /** The positions drained so far: ascending, all of them before what is queued. */
  ghost predicate TakenInv(taken: seq<nat>, left: nat, overflowed: bool) {
    && (forall i :: 0 <= i < |taken| ==> taken[i] < left)
    && (forall i, j :: 0 <= i < j < |taken| ==> taken[i] < taken[j])
    && |taken| <= left
    && (overflowed ==> |taken| < left)
    && (!overflowed ==> |taken| == left && forall i :: 0 <= i < |taken| ==> taken[i] == i)
  }

  ghost predicate QueueInv<T>(queue: seq<T>, published: seq<T>, maxsize: nat) {
    && |queue| <= |published|
    && (forall i :: 0 <= i < |queue| ==> queue[i] == published[|published| - |queue| + i])
    && (maxsize > 0 ==> |queue| <= maxsize)
  }

  ghost predicate HistoryInv<T>(h: History<T>, maxsize: nat) {
    QueueInv(h.queue, h.published, maxsize) && TakenInv(h.taken, |h.published| - |h.queue|, h.overflowed)
  }

  lemma {:induction false} HistoryHolds<T>(maxsize: nat, events: seq<Event<T>>)
    ensures HistoryInv(After(maxsize, events), maxsize)
  {
    hide QueueInv, TakenInv, Offer;
    if events == [] {
      NothingPublished<T>(maxsize);
    } else {
      HistoryHolds(maxsize, events[..|events| - 1]);
      var h := After(maxsize, events[..|events| - 1]);
      match events[|events| - 1]
      case Published(x) => PublishKeeps(h, maxsize, x);
      case Drained => DrainKeeps(h, maxsize);
    }
  }

  lemma NothingPublished<T>(maxsize: nat)
    ensures QueueInv<T>([], [], maxsize) && TakenInv([], 0, false)
  {
  }

  lemma PublishKeeps<T>(h: History<T>, maxsize: nat, x: T)
    requires HistoryInv(h, maxsize)
    ensures HistoryInv(History(Offer(h.queue, maxsize, x), h.published + [x], h.taken,
                               h.overflowed || Full(h.queue, maxsize)), maxsize)
  {
    var queue := Offer(h.queue, maxsize, x);
    if Full(h.queue, maxsize) {
      assert queue == h.queue[1..] + [x];
    } else {
      assert queue == h.queue + [x];
    }
  }

  lemma DrainKeeps<T>(h: History<T>, maxsize: nat)
    requires HistoryInv(h, maxsize)
    ensures |h.queue| <= |h.published|
    ensures h.queue != [] ==>
              HistoryInv(h.(queue := h.queue[1..], taken := h.taken + [|h.published| - |h.queue|]), maxsize)
  {
  }

  /**
   * Back-pressure. For any history the queue is a suffix of what was published, within its bound, ending in the
   * newest item if it holds any; what was drained was published, in that order, each position once, and before
   * what is queued. Drained and queued together are everything published exactly when no publish met a full queue.
   */
  lemma QueueIsNewestUnread<T>(maxsize: nat, events: seq<Event<T>>)
    ensures var h := After(maxsize, events);
            && |h.queue| <= |h.published| && h.queue == h.published[|h.published| - |h.queue|..]
            && (maxsize > 0 ==> |h.queue| <= maxsize)
            && (h.queue != [] ==> h.queue[|h.queue| - 1] == h.published[|h.published| - 1])
            && (forall i :: 0 <= i < |h.taken| ==> h.taken[i] < |h.published| - |h.queue|)
            && (forall i, j :: 0 <= i < j < |h.taken| ==> h.taken[i] < h.taken[j])
            && (!h.overflowed <==> DrainedItems(h) + h.queue == h.published)
  {
    hide After;
    HistoryHolds(maxsize, events);
    var h := After(maxsize, events);
    assert h.queue == h.published[|h.published| - |h.queue|..];
    if !h.overflowed {
      assert DrainedItems(h) == h.published[..|h.taken|];
    }
  }
}
