/**
 The per-client relay of the browser example: a bounded queue between the capture callback and
 the WebSocket sender. A full queue is dropped whole, and every stripe row is then gated until a
 keyframe of that row re-anchors it.

 `RelayState` and the functions on it are the specification. The class `RelayQueue` is the code, its
 queue, set and timestamp updated in place. The results are about every run of offers and sends.
 */
module Relay {
  import opened Options

  type Byte = x: int | 0 <= x < 256

  const QUEUE_MAXSIZE: nat := 120
  const IDR_FLOOR: real := 1.0

  /** A queued stripe: its wire bytes, and the number of the capture frame that owns them. */
  datatype Item = Item(data: seq<Byte>, owner: nat)

  predicate IsVideo(data: seq<Byte>) {
    |data| >= 10 && data[0] == 0x04
  }

  predicate IsKey(data: seq<Byte>) {
    IsVideo(data) && data[1] % 16 == 1
  }

  /** The stripe's row, its wire `y_start`; 0 for anything that is not video. */
  function Row(data: seq<Byte>): nat {
    if IsVideo(data) then data[4] as int * 256 + data[5] else 0
  }

  predicate IsDelta(data: seq<Byte>) {
    IsVideo(data) && !IsKey(data)
  }

  /**
   One client's relay. `queue`, `live` and `lastRequest` are the program's own state. `requests`
   (the times a keyframe was asked for), `offered` (every stripe handed to the relay so far) and
   `sent` record what happened around it.
   */
  datatype RelayState = RelayState(
    queue: seq<Item>,
    live: set<nat>,
    lastRequest: real,
    requests: seq<real>,
    offered: seq<seq<Byte>>,
    sent: seq<Item>)
  {
    /** Everything the client has been or will be sent, in order. */
    function Delivery(): seq<Item> { sent + queue }
  }

  const Initial := RelayState([], {}, 0.0, [], [], [])

  function Requested(s: RelayState, now: real): RelayState {
    if now - s.lastRequest >= IDR_FLOOR
    then s.(lastRequest := now, requests := s.requests + [now])
    else s
  }

  function Appended(s: RelayState, item: Item): RelayState {
    s.(queue := s.queue + [item],
       live := if IsKey(item.data) then s.live + {Row(item.data)} else s.live)
  }

  /** The relay after one stripe is offered at time `now`. */
  function Offered(s: RelayState, data: seq<Byte>, now: real): RelayState {
    var item := Item(data, |s.offered|);
    var s := s.(offered := s.offered + [data]);
    if IsDelta(data) && Row(data) !in s.live then
      Requested(s, now)
    else if |s.queue| < QUEUE_MAXSIZE then
      Appended(s, item)
    else
      var s := s.(queue := [], live := {});
      if IsDelta(data) then Requested(s, now) else Appended(s, item)
  }

  /** The relay after the sender takes the oldest stripe. */
  function Delivered(s: RelayState): RelayState
    requires s.queue != []
  {
    s.(queue := s.queue[1..], sent := s.sent + [s.queue[0]])
  }

  class RelayQueue {
    var queue: seq<Item>
    var liveRows: set<nat>
    var lastIdrRequest: real
    var requests: seq<real>
    ghost var offered: seq<seq<Byte>>
    ghost var sent: seq<Item>

    ghost function State(): RelayState
      reads this
    {
      RelayState(queue, liveRows, lastIdrRequest, requests, offered, sent)
    }

    constructor ()
      ensures State() == Initial
    {
      queue, liveRows, lastIdrRequest, requests := [], {}, 0.0, [];
      offered, sent := [], [];
    }

    method RequestIdrThrottled(now: real)
      modifies this`lastIdrRequest, this`requests
      ensures State() == Requested(old(State()), now)
    {
      if now - lastIdrRequest >= IDR_FLOOR {
        lastIdrRequest := now;
        requests := requests + [now];
      }
    }

    /** `asyncio.Queue.put_nowait`: `full` where the source raises `QueueFull`. */
    method PutNowait(item: Item) returns (full: bool)
      modifies this`queue
      ensures full == (|old(queue)| >= QUEUE_MAXSIZE)
      ensures queue == if full then old(queue) else old(queue) + [item]
    {
      full := |queue| >= QUEUE_MAXSIZE;
      if !full {
        queue := queue + [item];
      }
    }

    method Enqueue(item: Item, now: real)
      requires item.owner == |offered|
      modifies this
      ensures State() == Offered(old(State()), item.data, now)
    {
      offered := offered + [item.data];
      var isVideo := IsVideo(item.data);
      var isKey := isVideo && IsKey(item.data);
      var row := Row(item.data);
      if isVideo && !isKey && row !in liveRows {
        RequestIdrThrottled(now);
        return;
      }
      var full := PutNowait(item);
      if !full {
        if isKey {
          liveRows := liveRows + {row};
        }
        return;
      }
      while queue != []
        invariant State() == old(State()).(offered := old(offered) + [item.data], queue := queue)
        decreases |queue|
      {
        queue := queue[1..];
      }
      liveRows := {};
      if isVideo && !isKey {
        RequestIdrThrottled(now);
      } else {
        var _ := PutNowait(item);
        if isKey {
          liveRows := liveRows + {row};
        }
      }
    }

    /** One turn of the send task: the oldest queued stripe goes to the client. */
    method SendNext() returns (item: Item)
      requires queue != []
      modifies this`queue, this`sent
      ensures item == old(queue)[0]
      ensures State() == Delivered(old(State()))
    {
      item := queue[0];
      queue := queue[1..];
      sent := sent + [item];
    }
  }

  /** What can happen to a relay: a stripe arrives, or the sender is ready for one. */
  datatype Event = Offer(data: seq<Byte>, now: real) | Send

  function After(events: seq<Event>): RelayState {
    if events == [] then Initial
    else
      var s := After(events[..|events| - 1]);
      match events[|events| - 1]
      case Offer(data, now) => Offered(s, data, now)
      case Send => if s.queue == [] then s else Delivered(s)
  }

  /**
   What a decoder shows for `row` after the stripes `items`: a keyframe replaces the picture, a
   delta is the previous picture of that row changed, and everything else leaves it alone.
   */
  datatype Picture = Blank | Key(frame: nat) | Delta(from: Picture, frame: nat)

  function Shown(items: seq<Item>, row: nat): Picture {
    if items == [] then Blank
    else
      var before, last := Shown(items[..|items| - 1], row), items[|items| - 1];
      if !IsVideo(last.data) || Row(last.data) != row then before
      else if IsKey(last.data) then Key(last.owner)
      else Delta(before, last.owner)
  }

  /** The encoder's own stripes, numbered as they were produced. */
  function Produced(offered: seq<seq<Byte>>): (items: seq<Item>)
    ensures |items| == |offered|
    ensures forall i :: 0 <= i < |items| ==> items[i] == Item(offered[i], i)
  {
    seq(|offered|, i requires 0 <= i < |offered| => Item(offered[i], i))
  }

  /** The encoder's picture of `row` once it has produced `offered`. */
  function Encoded(offered: seq<seq<Byte>>, row: nat): Picture {
    Shown(Produced(offered), row)
  }

  /** A picture that was never built on a missing one. */
  predicate Anchored(p: Picture) {
    match p
    case Blank => false
    case Key(_) => true
    case Delta(from, _) => Anchored(from)
  }

  /**
   The stripes are the encoder's, in its order, and after each video stripe the client shows
   what the encoder showed, built from a keyframe on.
   */
  ghost predicate Faithful(items: seq<Item>, offered: seq<seq<Byte>>) {
    items == [] ||
    var before, last := items[..|items| - 1], items[|items| - 1];
    && Faithful(before, offered)
    && last.owner < |offered| && last.data == offered[last.owner]
    && (before != [] ==> before[|before| - 1].owner < last.owner)
    && (IsVideo(last.data) ==>
          && Shown(items, Row(last.data)) == Encoded(offered[..last.owner + 1], Row(last.data))
          && Anchored(Shown(items, Row(last.data))))
  }

  /** What every relay operation keeps. */
  ghost predicate Valid(s: RelayState) {
    && |s.queue| <= QUEUE_MAXSIZE
    && Faithful(s.Delivery(), s.offered)
    && (forall row :: row in s.live ==>
          Shown(s.Delivery(), row) == Encoded(s.offered, row) && Anchored(Shown(s.Delivery(), row)))
  }

  lemma ShownSnoc(items: seq<Item>, item: Item, row: nat)
    ensures Shown(items + [item], row) ==
            if !IsVideo(item.data) || Row(item.data) != row then Shown(items, row)
            else if IsKey(item.data) then Key(item.owner)
            else Delta(Shown(items, row), item.owner)
  {
    assert (items + [item])[..|items|] == items;
  }

  lemma ProducedSnoc(offered: seq<seq<Byte>>, data: seq<Byte>)
    ensures Produced(offered + [data]) == Produced(offered) + [Item(data, |offered|)]
  {
  }

  lemma {:induction false} FaithfulPrefix(items: seq<Item>, offered: seq<seq<Byte>>, n: nat)
    requires Faithful(items, offered) && n <= |items|
    ensures Faithful(items[..n], offered)
  {
    if n == |items| {
      assert items[..n] == items;
    } else {
      FaithfulPrefix(items[..|items| - 1], offered, n);
      assert items[..|items| - 1][..n] == items[..n];
    }
  }

  lemma {:induction false} FaithfulGrows(items: seq<Item>, offered: seq<seq<Byte>>, data: seq<Byte>)
    requires Faithful(items, offered)
    ensures Faithful(items, offered + [data])
  {
    if items != [] {
      FaithfulGrows(items[..|items| - 1], offered, data);
      var k := items[|items| - 1].owner;
      assert (offered + [data])[..k + 1] == offered[..k + 1];
    }
  }

  lemma {:induction false} FaithfulOwners(items: seq<Item>, offered: seq<seq<Byte>>)
    requires Faithful(items, offered) && items != []
    ensures items[|items| - 1].owner < |offered|
  {
  }

  lemma FaithfulSnoc(items: seq<Item>, offered: seq<seq<Byte>>, data: seq<Byte>)
    requires Faithful(items, offered)
    requires IsDelta(data) ==>
               Shown(items, Row(data)) == Encoded(offered, Row(data)) && Anchored(Shown(items, Row(data)))
    ensures Faithful(items + [Item(data, |offered|)], offered + [data])
  {
    var item := Item(data, |offered|);
    FaithfulGrows(items, offered, data);
    assert (items + [item])[..|items|] == items;
    assert (offered + [data])[..|offered| + 1] == offered + [data];
    ProducedSnoc(offered, data);
    ShownSnoc(items, item, Row(data));
    ShownSnoc(Produced(offered), item, Row(data));
  }

  /** Offering a stripe leaves the encoder's other rows alone. */
  lemma EncodedSnoc(offered: seq<seq<Byte>>, data: seq<Byte>, row: nat)
    ensures Encoded(offered + [data], row) ==
            if !IsVideo(data) || Row(data) != row then Encoded(offered, row)
            else if IsKey(data) then Key(|offered|)
            else Delta(Encoded(offered, row), |offered|)
  {
    ProducedSnoc(offered, data);
    ShownSnoc(Produced(offered), Item(data, |offered|), row);
  }

  lemma WithheldKeeps(s: RelayState, data: seq<Byte>)
    requires Valid(s) && IsDelta(data) && Row(data) !in s.live
    ensures Valid(s.(offered := s.offered + [data]))
  {
    FaithfulGrows(s.Delivery(), s.offered, data);
    forall row {
      EncodedSnoc(s.offered, data, row);
    }
  }

  lemma AppendedKeeps(s: RelayState, data: seq<Byte>)
    requires Valid(s) && |s.queue| < QUEUE_MAXSIZE
    requires IsDelta(data) ==> Row(data) in s.live
    ensures Valid(Appended(s.(offered := s.offered + [data]), Item(data, |s.offered|)))
  {
    var item := Item(data, |s.offered|);
    var t := Appended(s.(offered := s.offered + [data]), item);
    assert t.Delivery() == s.Delivery() + [item];
    FaithfulSnoc(s.Delivery(), s.offered, data);
    forall row | row in t.live
      ensures Shown(t.Delivery(), row) == Encoded(t.offered, row) && Anchored(Shown(t.Delivery(), row))
    {
      EncodedSnoc(s.offered, data, row);
      ShownSnoc(s.Delivery(), item, row);
    }
  }

  lemma DroppedKeeps(s: RelayState)
    requires Valid(s)
    ensures Valid(s.(queue := [], live := {}))
  {
    FaithfulPrefix(s.Delivery(), s.offered, |s.sent|);
    assert s.Delivery()[..|s.sent|] == s.sent == s.sent + [];
  }

  lemma OfferedKeeps(s: RelayState, data: seq<Byte>, now: real)
    requires Valid(s)
    ensures Valid(Offered(s, data, now))
  {
    var dropped := s.(queue := [], live := {});
    DroppedKeeps(s);
    if IsDelta(data) && Row(data) !in s.live {
      WithheldKeeps(s, data);
    } else if |s.queue| < QUEUE_MAXSIZE {
      AppendedKeeps(s, data);
    } else if IsDelta(data) {
      WithheldKeeps(dropped, data);
    } else {
      AppendedKeeps(dropped, data);
    }
  }

  lemma DeliveryUnchangedBySending(s: RelayState)
    requires s.queue != []
    ensures Delivered(s).Delivery() == s.Delivery()
  {
  }

  lemma {:induction false} RunsAreValid(events: seq<Event>)
    ensures Valid(After(events))
  {
    if events != [] {
      var s := After(events[..|events| - 1]);
      RunsAreValid(events[..|events| - 1]);
      match events[|events| - 1]
      case Offer(data, now) => OfferedKeeps(s, data, now);
      case Send => if s.queue != [] { DeliveryUnchangedBySending(s); }
    }
  }

  /** A faithful delivery's stripe number `p`, and what the client shows then. */
  lemma FaithfulAt(items: seq<Item>, offered: seq<seq<Byte>>, p: nat)
    requires Faithful(items, offered) && p < |items|
    ensures items[p].owner < |offered| && items[p].data == offered[items[p].owner]
    ensures p > 0 ==> items[p - 1].owner < items[p].owner
    ensures IsVideo(items[p].data) ==>
              && Shown(items[..p + 1], Row(items[p].data)) == Encoded(offered[..items[p].owner + 1], Row(items[p].data))
              && Anchored(Shown(items[..p + 1], Row(items[p].data)))
  {
    FaithfulPrefix(items, offered, p + 1);
    assert items[..p + 1][..p] == items[..p] && items[..p + 1][p] == items[p];
  }

  lemma SentAt(s: RelayState, p: nat)
    requires Faithful(s.Delivery(), s.offered) && p < |s.sent|
    ensures var item := s.sent[p];
            && item.owner < |s.offered|
            && item.data == s.offered[item.owner]
            && (p > 0 ==> s.sent[p - 1].owner < item.owner)
            && (IsVideo(item.data) ==>
                  && Shown(s.sent[..p + 1], Row(item.data)) == Encoded(s.offered[..item.owner + 1], Row(item.data))
                  && Anchored(Shown(s.sent[..p + 1], Row(item.data))))
  {
    FaithfulAt(s.Delivery(), s.offered, p);
    assert s.Delivery()[..p + 1] == s.sent[..p + 1];
  }

  /**
   Whatever is sent decodes to what was encoded: after each video stripe the client receives, it
   shows for that row exactly the picture the encoder had when it produced the stripe, and that
   picture goes back to a keyframe, whatever was dropped in between. The stripes come in the
   encoder's order and the queue never holds more than its bound.
   */
  lemma ClientSeesEncoderPictures(events: seq<Event>, p: nat)
    requires p < |After(events).sent|
    ensures |After(events).queue| <= QUEUE_MAXSIZE
    ensures var s := After(events);
            var item := s.sent[p];
            && item.owner < |s.offered|
            && item.data == s.offered[item.owner]
            && (p > 0 ==> s.sent[p - 1].owner < item.owner)
            && (IsVideo(item.data) ==>
                  && Shown(s.sent[..p + 1], Row(item.data)) == Encoded(s.offered[..item.owner + 1], Row(item.data))
                  && Anchored(Shown(s.sent[..p + 1], Row(item.data))))
  {
    RunsAreValid(events);
    SentAt(After(events), p);
  }

  /** The number of the last stripe of `row` among `items`. */
  function LastOf(items: seq<Item>, row: nat): Option<nat> {
    if items == [] then None
    else
      var last := items[|items| - 1];
      if IsVideo(last.data) && Row(last.data) == row then Some(last.owner)
      else LastOf(items[..|items| - 1], row)
  }

  /** A picture names the stripe it was last changed by. */
  lemma {:induction false} ShownNamesLast(items: seq<Item>, row: nat)
    ensures match Shown(items, row)
            case Blank => LastOf(items, row) == None
            case Key(f) => LastOf(items, row) == Some(f)
            case Delta(_, f) => LastOf(items, row) == Some(f)
  {
    if items != [] {
      ShownNamesLast(items[..|items| - 1], row);
    }
  }

  lemma FaithfulDeltaFollows(before: seq<Item>, item: Item, offered: seq<seq<Byte>>)
    requires Faithful(before + [item], offered) && IsDelta(item.data)
    ensures item.owner < |offered|
    ensures LastOf(before, Row(item.data)) != None
    ensures LastOf(before, Row(item.data)) == LastOf(Produced(offered[..item.owner]), Row(item.data))
  {
    var row, made := Row(item.data), offered[..item.owner];
    var items := before + [item];
    assert items[..|items| - 1] == before && items[|items| - 1] == item;
    assert Shown(items, row) == Encoded(offered[..item.owner + 1], row) && Anchored(Shown(items, row));
    assert offered[..item.owner + 1] == made + [item.data];
    EncodedSnoc(made, item.data, row);
    ShownSnoc(before, item, row);
    assert Shown(items, row) == Delta(Shown(before, row), item.owner);
    assert Anchored(Shown(before, row));
    ShownNamesLast(before, row);
    ShownNamesLast(Produced(made), row);
  }

  lemma FaithfulDeltaAt(items: seq<Item>, offered: seq<seq<Byte>>, p: nat)
    requires Faithful(items, offered) && p < |items| && IsDelta(items[p].data)
    ensures items[p].owner < |offered|
    ensures LastOf(items[..p], Row(items[p].data)) != None
    ensures LastOf(items[..p], Row(items[p].data)) == LastOf(Produced(offered[..items[p].owner]), Row(items[p].data))
  {
    FaithfulPrefix(items, offered, p + 1);
    assert items[..p + 1] == items[..p] + [items[p]];
    FaithfulDeltaFollows(items[..p], items[p], offered);
  }

  /**
   Directly before each delta in the delivery, among the stripes of its row, stands its
   immediate predecessor in the encoder's stream of that row, and there is one: no row is joined
   without a keyframe and none has a gap.
   */
  lemma DeltasFollowTheirPredecessor(events: seq<Event>, p: nat)
    requires p < |After(events).Delivery()| && IsDelta(After(events).Delivery()[p].data)
    ensures var s := After(events);
            var item := s.Delivery()[p];
            && item.owner < |s.offered|
            && LastOf(s.Delivery()[..p], Row(item.data)) != None
            && LastOf(s.Delivery()[..p], Row(item.data)) ==
               LastOf(Produced(s.offered[..item.owner]), Row(item.data))
  {
    RunsAreValid(events);
    FaithfulDeltaAt(After(events).Delivery(), After(events).offered, p);
  }

  /** Keyframe requests are at least the floor apart, and the last one is the one remembered. */
  lemma {:induction false} RequestsAreFloorApart(events: seq<Event>)
    ensures var s := After(events);
            && (s.requests != [] ==> s.requests[|s.requests| - 1] == s.lastRequest)
            && (s.requests == [] ==> s.lastRequest == 0.0)
            && (forall i :: 0 < i < |s.requests| ==> s.requests[i] - s.requests[i - 1] >= 1.0)
  {
    if events != [] {
      RequestsAreFloorApart(events[..|events| - 1]);
    }
  }

  /** Whether the newest queued stripe is the one numbered `owner`. */
  predicate EndsWith(queue: seq<Item>, owner: nat) {
    queue != [] && queue[|queue| - 1].owner == owner
  }

  /**
   Nothing is withheld in silence: a stripe that is not queued is a delta, and a keyframe was
   asked for no more than the floor ago. The backlog before it is kept whole, or dropped whole
   and then only when it was full.
   */
  lemma {:induction false} WithheldOnlyWithARequest(s: RelayState, data: seq<Byte>, now: real)
    requires Valid(s)
    ensures var t := Offered(s, data, now);
            var queued := EndsWith(t.queue, |s.offered|);
            var backlog := if queued then t.queue[..|t.queue| - 1] else t.queue;
            && (queued || (IsDelta(data) && now - t.lastRequest < IDR_FLOOR))
            && (backlog == s.queue || (backlog == [] && |s.queue| == QUEUE_MAXSIZE))
  {
    if s.queue != [] {
      assert s.Delivery()[|s.Delivery()| - 1] == s.queue[|s.queue| - 1];
      FaithfulOwners(s.Delivery(), s.offered);
    }
  }

  // ----- the same on the wire's bytes

  /** A video stripe: ten bytes at least, the first the video prefix. */
  predicate WireVideo(d: seq<Byte>) {
    |d| >= 10 && d[0] == 0x04
  }

  /** A key frame: kind 1 in the low nibble of byte 1, under any codec. */
  predicate WireKey(d: seq<Byte>) {
    WireVideo(d) && d[1] in {0x01, 0x11, 0x21, 0x31, 0x41, 0x51, 0x61, 0x71, 0x81, 0x91, 0xA1, 0xB1, 0xC1, 0xD1, 0xE1, 0xF1}
  }

  predicate WireDelta(d: seq<Byte>) {
    WireVideo(d) && !WireKey(d)
  }

  /** Two video stripes of one row: bytes 4 and 5 agree. */
  predicate SameRow(a: seq<Byte>, b: seq<Byte>) {
    WireVideo(a) && WireVideo(b) && a[4] == b[4] && a[5] == b[5]
  }

  lemma KindsAreTheBytes(d: seq<Byte>)
    ensures IsVideo(d) <==> WireVideo(d)
    ensures IsKey(d) <==> WireKey(d)
    ensures IsDelta(d) <==> WireDelta(d)
  {
  }

  lemma RowsAreTheBytes(a: seq<Byte>, b: seq<Byte>)
    requires WireVideo(a) && WireVideo(b)
    ensures Row(a) == Row(b) <==> a[4] == b[4] && a[5] == b[5]
  {
  }

  /** The number of the last stripe of `d`'s row among `items`. */
  function LastLike(items: seq<Item>, d: seq<Byte>): Option<nat> {
    if items == [] then None
    else
      var last := items[|items| - 1];
      if SameRow(last.data, d) then Some(last.owner) else LastLike(items[..|items| - 1], d)
  }

  lemma {:induction false} LastLikeIsLastOf(items: seq<Item>, d: seq<Byte>)
    requires WireVideo(d)
    ensures LastLike(items, d) == LastOf(items, Row(d))
  {
    if items != [] {
      var last := items[|items| - 1].data;
      LastLikeIsLastOf(items[..|items| - 1], d);
      KindsAreTheBytes(last);
      if WireVideo(last) {
        RowsAreTheBytes(last, d);
      }
    }
  }

  /** What a decoder shows for `d`'s row after `items`. */
  function Decoded(items: seq<Item>, d: seq<Byte>): Picture {
    if items == [] then Blank
    else
      var before, last := Decoded(items[..|items| - 1], d), items[|items| - 1];
      if !SameRow(last.data, d) then before
      else if WireKey(last.data) then Key(last.owner)
      else Delta(before, last.owner)
  }

  lemma {:induction false} DecodedIsShown(items: seq<Item>, d: seq<Byte>)
    requires WireVideo(d)
    ensures Decoded(items, d) == Shown(items, Row(d))
  {
    if items != [] {
      var last := items[|items| - 1].data;
      DecodedIsShown(items[..|items| - 1], d);
      KindsAreTheBytes(last);
      if WireVideo(last) {
        RowsAreTheBytes(last, d);
      }
    }
  }

  /**
   In every run: a video stripe the client gets decodes to the encoder's own picture of its row,
   which goes back to a key frame, rows being told by bytes 4 and 5 alone; and the queue holds
   120 stripes at most.
   */
  lemma {:induction false} ClientDecodesEveryRow(events: seq<Event>, p: nat)
    requires p < |After(events).sent| && WireVideo(After(events).sent[p].data)
    ensures |After(events).queue| <= 120
    ensures var s := After(events);
            var item := s.sent[p];
            && item.owner < |s.offered| && item.data == s.offered[item.owner]
            && Decoded(s.sent[..p + 1], item.data) == Decoded(Produced(s.offered[..item.owner + 1]), item.data)
            && Anchored(Decoded(s.sent[..p + 1], item.data))
  {
    var s := After(events);
    var item := s.sent[p];
    ClientSeesEncoderPictures(events, p);
    KindsAreTheBytes(item.data);
    DecodedIsShown(s.sent[..p + 1], item.data);
    DecodedIsShown(Produced(s.offered[..item.owner + 1]), item.data);
  }

  /** And directly before each delta stands the encoder's last stripe before it with the same bytes 4 and 5. */
  lemma {:induction false} DeltasFollowTheirRow(events: seq<Event>, p: nat)
    requires p < |After(events).Delivery()| && WireDelta(After(events).Delivery()[p].data)
    ensures var s := After(events);
            var item := s.Delivery()[p];
            && item.owner < |s.offered|
            && LastLike(s.Delivery()[..p], item.data) != None
            && LastLike(s.Delivery()[..p], item.data) == LastLike(Produced(s.offered[..item.owner]), item.data)
  {
    var s := After(events);
    var item := s.Delivery()[p];
    KindsAreTheBytes(item.data);
    DeltasFollowTheirPredecessor(events, p);
    LastLikeIsLastOf(s.Delivery()[..p], item.data);
    LastLikeIsLastOf(Produced(s.offered[..item.owner]), item.data);
  }

  /**
   The gate of `d`'s row is open: a key frame of the row was offered, and no full queue was dropped
   since, unless for that key frame.
   */
  predicate GateOpen(events: seq<Event>, d: seq<Byte>) {
    if events == [] then false
    else
      var front := events[..|events| - 1];
      match events[|events| - 1]
      case Send => GateOpen(front, d)
      case Offer(data, _) =>
        var passes := !WireDelta(data) || GateOpen(front, data);
        var dropped := passes && |After(front).queue| == 120;
        (!dropped && GateOpen(front, d)) || (WireKey(data) && SameRow(data, d))
  }

  lemma OfferedLive(s: RelayState, data: seq<Byte>, now: real, row: nat)
    requires |s.queue| <= QUEUE_MAXSIZE
    ensures var t := Offered(s, data, now);
            var passes := !IsDelta(data) || Row(data) in s.live;
            var dropped := passes && |s.queue| == QUEUE_MAXSIZE;
            row in t.live <==> (!dropped && row in s.live) || (IsKey(data) && Row(data) == row)
  {
  }

  lemma {:induction false} LiveIsOpen(events: seq<Event>, d: seq<Byte>)
    requires WireVideo(d)
    ensures Row(d) in After(events).live <==> GateOpen(events, d)
    decreases |events|
  {
    if events != [] {
      var front, last := events[..|events| - 1], events[|events| - 1];
      LiveIsOpen(front, d);
      if last.Offer? {
        RunsAreValid(front);
        KindsAreTheBytes(last.data);
        OfferedLive(After(front), last.data, last.now, Row(d));
        if WireVideo(last.data) {
          LiveIsOpen(front, last.data);
          RowsAreTheBytes(last.data, d);
        }
      }
    }
  }

  /**
   What a stripe does to the queue, in every run. A delta whose gate is shut is withheld. Anything
   else is queued behind what is there; or, where 120 stripes are, those are dropped and it is
   queued alone, a delta not at all. Where a delta is not queued a key frame is asked for, if the
   last was a second ago.
   */
  lemma {:induction false} OfferExactly(events: seq<Event>, data: seq<Byte>, now: real)
    ensures var s, t := After(events), After(events + [Offer(data, now)]);
            var item := Item(data, |s.offered|);
            var shut := WireDelta(data) && !GateOpen(events, data);
            && t.sent == s.sent && t.offered == s.offered + [data]
            && t.queue == (if shut then s.queue
                           else if |s.queue| < 120 then s.queue + [item]
                           else if WireDelta(data) then [] else [item])
            && (if WireDelta(data) && (shut || |s.queue| == 120) && now - s.lastRequest >= 1.0
                then t.requests == s.requests + [now] && t.lastRequest == now
                else t.requests == s.requests && t.lastRequest == s.lastRequest)
  {
    assert (events + [Offer(data, now)])[..|events|] == events;
    RunsAreValid(events);
    KindsAreTheBytes(data);
    if WireVideo(data) {
      LiveIsOpen(events, data);
    }
  }

  /** The sender takes stripes from the front, in order. */
  lemma {:induction false} SendExactly(events: seq<Event>)
    requires After(events).queue != []
    ensures var s, t := After(events), After(events + [Send]);
            t.sent == s.sent + [s.queue[0]] && [s.queue[0]] + t.queue == s.queue && t.offered == s.offered
  {
    assert (events + [Send])[..|events|] == events;
  }
}
