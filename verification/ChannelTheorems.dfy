/** Channels deliver in order, without loss or mixing, over every run of the channel syscalls. */
module ChannelTheorems {
  import opened Basics
  import opened ChannelSpec

  // ----- histories

  /** The messages accepted on a channel from one of its endpoints, in order. */
  function Sent(events: seq<Event>, id: nat, from: nat): seq<Message> {
    if events == [] then []
    else
      var last := |events| - 1;
      Sent(events[..last], id, from) + SentBy(events[last], id, from)
  }

  function SentBy(e: Event, id: nat, from: nat): seq<Message> {
    if e.Accepted? && e.channel == id && e.from == from then [e.message] else []
  }

  /** The messages delivered on a channel to one of its endpoints, in order. */
  function Got(events: seq<Event>, id: nat, to: nat): seq<Message> {
    if events == [] then []
    else
      var last := |events| - 1;
      Got(events[..last], id, to) + GotBy(events[last], id, to)
  }

  function GotBy(e: Event, id: nat, to: nat): seq<Message> {
    if e.Delivered? && e.channel == id && e.to == to then [e.message] else []
  }

  lemma HistoryStep(events: seq<Event>, e: Event, id: nat, pid: nat)
    ensures Sent(events + [e], id, pid) == Sent(events, id, pid) + SentBy(e, id, pid)
    ensures Got(events + [e], id, pid) == Got(events, id, pid) + GotBy(e, id, pid)
  {
  }

  // ----- the invariant

  ghost predicate FromOne(queue: seq<Message>, sender: nat) {
    |queue| <= MAX_QUEUE_SIZE && forall i :: 0 <= i < |queue| ==> queue[i].sender == sender
  }

  /** In each direction what was accepted is what was delivered followed by what is queued. */
  ghost predicate InStep(c: Channel, events: seq<Event>) {
    && c.endpoint1 != c.endpoint2
    && FromOne(c.queue1to2, c.endpoint1)
    && FromOne(c.queue2to1, c.endpoint2)
    && Sent(events, c.id, c.endpoint1) == Got(events, c.id, c.endpoint2) + c.queue1to2
    && Sent(events, c.id, c.endpoint2) == Got(events, c.id, c.endpoint1) + c.queue2to1
  }

  predicate Mentions(e: Event, id: nat) {
    (e.Accepted? || e.Delivered?) && e.channel == id
  }

  ghost predicate UniqueIds(cs: seq<Channel>) {
    forall i, j :: 0 <= i < j < |cs| ==> cs[i].id != cs[j].id
  }

  ghost predicate Traced(r: Registry, events: seq<Event>) {
    && UniqueIds(r.channels)
    && (forall i :: 0 <= i < |r.channels| ==> 0 < r.channels[i].id < r.nextId && InStep(r.channels[i], events))
    && (forall i, id: nat :: 0 <= i < |events| && Mentions(events[i], id) ==> id < r.nextId)
  }

  /** An event about another channel, or about none, changes no history of this one. */
  lemma UnmentionedStays(c: Channel, events: seq<Event>, e: Event)
    requires InStep(c, events) && !Mentions(e, c.id)
    ensures InStep(c, events + [e])
  {
  }

  lemma {:induction false} NewIdHasNoHistory(events: seq<Event>, id: nat, pid: nat)
    requires forall i :: 0 <= i < |events| ==> !Mentions(events[i], id)
    ensures Sent(events, id, pid) == [] && Got(events, id, pid) == []
  {
    if events != [] {
      NewIdHasNoHistory(events[..|events| - 1], id, pid);
    }
  }

  /** One direction of a channel takes one more message in. */
  lemma SendInStep(c: Channel, events: seq<Event>, sender: nat, m: Message)
    requires InStep(c, events) && Send(c, sender, m).Some? && m.sender == sender
    ensures var c' := Send(c, sender, m).value;
            c'.id == c.id && InStep(c', events + [Accepted(c.id, sender, m)])
  {
    hide Sent, Got;
    HistoryStep(events, Accepted(c.id, sender, m), c.id, c.endpoint1);
    HistoryStep(events, Accepted(c.id, sender, m), c.id, c.endpoint2);
  }

  lemma ReceiveInStep(c: Channel, events: seq<Event>, receiver: nat, copied: seq<Byte>)
    requires InStep(c, events) && Receive(c, receiver).1.Some?
    ensures var (c', m) := Receive(c, receiver);
            c'.id == c.id && InStep(c', events + [Delivered(c.id, receiver, m.value, copied)])
  {
  }

  // ----- steps

  lemma CreateTraced(r: Registry, events: seq<Event>, caller: nat, target: nat)
    requires Traced(r, events) && r.nextId > 0
    ensures var (r', e) := CreateChannel(r, caller, target);
            Traced(r', events + [e])
  {
    hide Sent, Got;
    var (r', e) := CreateChannel(r, caller, target);
    forall i | 0 <= i < |r.channels| ensures InStep(r.channels[i], events + [e]) {
      UnmentionedStays(r.channels[i], events, e);
    }
    NewIdHasNoHistory(events + [e], r.nextId, caller);
    NewIdHasNoHistory(events + [e], r.nextId, target);
  }

  /** Replacing channel `k` by one that is in step with the new event keeps the whole registry in step. */
  lemma UpdateTraced(r: Registry, events: seq<Event>, k: nat, c: Channel, e: Event)
    requires Traced(r, events) && k < |r.channels| && c.id == r.channels[k].id && InStep(c, events + [e])
    requires forall id: nat :: Mentions(e, id) ==> id == c.id
    ensures Traced(r.(channels := r.channels[k := c]), events + [e])
  {
    var cs := r.channels[k := c];
    forall i | 0 <= i < |cs| ensures 0 < cs[i].id < r.nextId && InStep(cs[i], events + [e]) {
      if i != k { UnmentionedStays(cs[i], events, e); }
    }
  }

  lemma SendTraced(r: Registry, events: seq<Event>, caller: nat, id: nat, msgType: nat, ptr: nat, data: seq<Byte>)
    requires Traced(r, events)
    ensures var (r', e) := SendMessage(r, caller, id, msgType, ptr, data);
            Traced(r', events + [e])
  {
    var (r', e) := SendMessage(r, caller, id, msgType, ptr, data);
    if e.Accepted? {
      var k := Find(r.channels, id);
      SendInStep(r.channels[k], events, caller, e.message);
      UpdateTraced(r, events, k, Send(r.channels[k], caller, e.message).value, e);
    } else {
      QuietTraced(r, events, e);
    }
  }

  lemma QuietTraced(r: Registry, events: seq<Event>, e: Event)
    requires Traced(r, events) && !e.Accepted? && !e.Delivered?
    ensures Traced(r, events + [e])
  {
    forall i | 0 <= i < |r.channels| ensures InStep(r.channels[i], events + [e]) {
      UnmentionedStays(r.channels[i], events, e);
    }
  }

  lemma ReceiveTraced(r: Registry, events: seq<Event>, caller: nat, id: nat, ptr: nat, size: nat)
    requires Traced(r, events)
    ensures var (r', e) := ReceiveMessage(r, caller, id, ptr, size);
            Traced(r', events + [e])
  {
    var (r', e) := ReceiveMessage(r, caller, id, ptr, size);
    if e.Delivered? {
      var k := Find(r.channels, id);
      ReceiveInStep(r.channels[k], events, caller, e.copied);
      UpdateTraced(r, events, k, Receive(r.channels[k], caller).0, e);
    } else {
      assert r'.channels == r.channels;
      QuietTraced(r, events, e);
    }
  }

  // ----- closing channels

  lemma {:induction false} WithoutMembers(cs: seq<Channel>, id: nat)
    ensures forall c :: c in Without(cs, id) <==> c in cs && c.id != id
  {
    if cs != [] {
      var last := |cs| - 1;
      WithoutMembers(cs[..last], id);
      assert cs == cs[..last] + [cs[last]];
    }
  }

  lemma WithoutSnoc(cs: seq<Channel>, c: Channel, id: nat)
    ensures Without(cs + [c], id) == Without(cs, id) + (if c.id != id then [c] else [])
  {
  }

  /** Removing the listed ids one pass at a time keeps exactly the channels not listed. */
  lemma {:induction false} WithoutAllSnoc(cs: seq<Channel>, c: Channel, ids: seq<nat>)
    ensures WithoutAll(cs + [c], ids) == if c.id in ids then WithoutAll(cs, ids) else WithoutAll(cs, ids) + [c]
  {
    if ids != [] {
      var front, id := ids[..|ids| - 1], ids[|ids| - 1];
      assert ids == front + [id];
      WithoutAllSnoc(cs, c, front);
      WithoutSnoc(WithoutAll(cs, front), c, id);
    }
  }

  lemma {:induction false} WithoutAllSkips(cs: seq<Channel>, ids: seq<nat>, extra: nat)
    requires forall i :: 0 <= i < |cs| ==> cs[i].id != extra
    ensures WithoutAll(cs, ids + [extra]) == WithoutAll(cs, ids)
  {
    assert (ids + [extra])[..|ids|] == ids;
    WithoutAllFrom(cs, ids);
    var rest := WithoutAll(cs, ids);
    forall i | 0 <= i < |rest| ensures rest[i].id != extra { assert rest[i] in rest; }
    WithoutNone(rest, extra);
  }

  lemma {:induction false} WithoutNone(cs: seq<Channel>, id: nat)
    requires forall i :: 0 <= i < |cs| ==> cs[i].id != id
    ensures Without(cs, id) == cs
  {
    if cs != [] {
      WithoutNone(cs[..|cs| - 1], id);
    }
  }

  lemma {:induction false} WithoutAllFrom(cs: seq<Channel>, ids: seq<nat>)
    ensures forall c :: c in WithoutAll(cs, ids) ==> c in cs
  {
    if ids != [] {
      WithoutAllFrom(cs, ids[..|ids| - 1]);
      WithoutMembers(WithoutAll(cs, ids[..|ids| - 1]), ids[|ids| - 1]);
    }
  }

  lemma {:induction false} IdNotListed(cs: seq<Channel>, pid: nat, id: nat)
    requires forall i :: 0 <= i < |cs| ==> cs[i].id != id
    ensures id !in IdsOf(cs, pid)
  {
    if cs != [] {
      IdNotListed(cs[..|cs| - 1], pid, id);
    }
  }

  /** With distinct ids, collecting the ids of a process's channels and then removing them one by one
      keeps exactly the channels it is not an endpoint of, in order. */
  lemma {:induction false} CleanupIsFilter(cs: seq<Channel>, pid: nat)
    requires UniqueIds(cs)
    ensures WithoutAll(cs, IdsOf(cs, pid)) == Strangers(cs, pid)
  {
    if cs != [] {
      var last := |cs| - 1;
      var front, c := cs[..last], cs[last];
      assert cs == front + [c];
      CleanupIsFilter(front, pid);
      IdNotListed(front, pid, c.id);
      WithoutAllSnoc(front, c, IdsOf(cs, pid));
      if c.HasEndpoint(pid) {
        WithoutAllSkips(front, IdsOf(front, pid), c.id);
      } else {
        assert IdsOf(cs, pid) == IdsOf(front, pid);
      }
    }
  }

  lemma {:induction false} StrangersTraced(cs: seq<Channel>, pid: nat)
    requires UniqueIds(cs)
    ensures UniqueIds(Strangers(cs, pid))
    ensures forall c :: c in Strangers(cs, pid) <==> c in cs && c.endpoint1 != pid && c.endpoint2 != pid
  {
    if cs != [] {
      var last := |cs| - 1;
      StrangersTraced(cs[..last], pid);
      assert cs == cs[..last] + [cs[last]];
      var kept := Strangers(cs[..last], pid);
      forall i | 0 <= i < |kept| ensures kept[i].id != cs[last].id {
        assert kept[i] in cs[..last];
      }
    }
  }

  lemma CleanupTraced(r: Registry, events: seq<Event>, pid: nat)
    requires Traced(r, events)
    ensures var (r', e) := CleanupChannels(r, pid);
            Traced(r', events + [e])
  {
    var (r', e) := CleanupChannels(r, pid);
    QuietTraced(r, events, e);
    CleanupIsFilter(r.channels, pid);
    StrangersTraced(r.channels, pid);
    forall i | 0 <= i < |r'.channels|
      ensures 0 < r'.channels[i].id < r'.nextId && InStep(r'.channels[i], events + [e])
    {
      assert r'.channels[i] in r.channels;
    }
  }

  // ----- theorems

  /** Over every run of the channel syscalls: ids stay unique, queues stay within 1000 messages of the
      right sender, and in each direction of every channel what was accepted is what was delivered
      followed by what is still queued. */
  lemma {:induction false} ChannelsAreFifo(steps: seq<Step>)
    ensures var (r, events) := Run(EMPTY, steps);
            r.nextId > 0 && Traced(r, events)
  {
    if steps != [] {
      var last := |steps| - 1;
      ChannelsAreFifo(steps[..last]);
      var (r, events) := Run(EMPTY, steps[..last]);
      match steps[last]
      case CreateStep(caller, target) => CreateTraced(r, events, caller, target);
      case SendStep(caller, id, msgType, ptr, data) => SendTraced(r, events, caller, id, msgType, ptr, data);
      case ReceiveStep(caller, id, ptr, size) => ReceiveTraced(r, events, caller, id, ptr, size);
      case CleanupStep(pid) => CleanupTraced(r, events, pid);
    }
  }

  /** The other endpoint of a channel. */
  function Other(c: Channel, pid: nat): nat {
    if pid == c.endpoint1 then c.endpoint2 else c.endpoint1
  }

  /** A buffer the kernel takes: null, or inside user memory. */
  predicate Buffer(ptr: nat, len: nat) {
    len <= 256 && (ptr == 0 || (0x40_0000 <= ptr && ptr + len <= 0x7FFF_FFFF))
  }

  lemma RegisteredAt(steps: seq<Step>, k: nat)
    requires k < |Run(EMPTY, steps).0.channels|
    ensures var (r, events) := Run(EMPTY, steps);
            Find(r.channels, r.channels[k].id) == k && InStep(r.channels[k], events)
  {
    ChannelsAreFifo(steps);
  }

  /** Over every run a receipt by an endpoint delivers exactly when the other endpoint has more messages accepted than
      this one has got; what is delivered is the first of these, cut to the buffer. */
  lemma ReceiveDeliversIff(steps: seq<Step>, k: nat, to: nat, ptr: nat, size: nat)
    requires k < |Run(EMPTY, steps).0.channels|
    requires var c := Run(EMPTY, steps).0.channels[k]; c.id <= 1000 && (to == c.endpoint1 || to == c.endpoint2)
    requires Buffer(ptr, size)
    ensures var (r, events) := Run(EMPTY, steps);
            var c := r.channels[k];
            var sent, got := Sent(events, c.id, Other(c, to)), |Got(events, c.id, to)|;
            var e := ReceiveMessage(r, to, c.id, ptr, size).1;
            if got < |sent|
            then e == Delivered(c.id, to, sent[got], sent[got].data[..Min(sent[got].dataLen, size)])
            else e == NoMessage
  {
    hide Sent, Got, Traced;
    RegisteredAt(steps, k);
    ChannelIdIsPositive(steps, k);
  }

  lemma ChannelIdIsPositive(steps: seq<Step>, k: nat)
    requires k < |Run(EMPTY, steps).0.channels|
    ensures Run(EMPTY, steps).0.channels[k].id > 0
  {
    ChannelsAreFifo(steps);
  }

  /** A send by an endpoint is accepted exactly when fewer than 1000 of its messages are waiting; the message is its
      first 256 bytes. */
  lemma SendAcceptedIff(steps: seq<Step>, k: nat, from: nat, msgType: nat, ptr: nat, data: seq<Byte>)
    requires k < |Run(EMPTY, steps).0.channels|
    requires var c := Run(EMPTY, steps).0.channels[k]; c.id <= 1000 && (from == c.endpoint1 || from == c.endpoint2)
    requires Buffer(ptr, |data|)
    ensures var (r, events) := Run(EMPTY, steps);
            var c := r.channels[k];
            var waiting := |Sent(events, c.id, from)| - |Got(events, c.id, Other(c, from))|;
            var e := SendMessage(r, from, c.id, msgType, ptr, data).1;
            if waiting < 1000
            then e.Accepted? && e.channel == c.id && e.from == from && e.message.sender == from &&
                 e.message.msgType == msgType % 0x1_0000_0000 && e.message.dataLen == |data| &&
                     e.message.data[..|data|] == data
            else e == Refused
  {
    hide Sent, Got, Traced;
    RegisteredAt(steps, k);
    ChannelIdIsPositive(steps, k);
  }

  /** Everything else is refused without effect: bad arguments, an id that is not registered, and sends by strangers;
      a stranger's receipt finds no message. */
  lemma OthersAreRefused(r: Registry, caller: nat, id: nat, msgType: nat, ptr: nat, data: seq<Byte>, size: nat)
    ensures id == 0 || id > 1000 || !Buffer(ptr, |data|) ||
            (forall k :: 0 <= k < |r.channels| ==> r.channels[k].id != id)
            ==> SendMessage(r, caller, id, msgType, ptr, data) == (r, Refused)
    ensures id == 0 || id > 1000 || !Buffer(ptr, size) || (forall k :: 0 <= k < |r.channels| ==> r.channels[k].id != id)
            ==> ReceiveMessage(r, caller, id, ptr, size) == (r, Refused)
    ensures (forall k :: 0 <= k < |r.channels| && r.channels[k].id == id ==>
               caller != r.channels[k].endpoint1 && caller != r.channels[k].endpoint2)
            ==> SendMessage(r, caller, id, msgType, ptr, data) == (r, Refused) &&
                ReceiveMessage(r, caller, id, ptr, size).0 == r &&
                    !ReceiveMessage(r, caller, id, ptr, size).1.Delivered?
  {
  }

  /** A channel joins the caller to another process with a pid from 1 to 10000. */
  lemma CreateAnswers(r: Registry, caller: nat, target: nat)
    ensures var (t, e) := CreateChannel(r, caller, target);
            if caller != target && 1 <= target <= 10000
            then e == Created(r.nextId) && t.nextId == r.nextId + 1 && |t.channels| == |r.channels| + 1 &&
                 t.channels[..|r.channels|] == r.channels &&
                 t.channels[|r.channels|] == Channel(r.nextId, caller, target, [], [])
            else t == r && e == Refused
  {
  }

  /** Filters split over lists, so that clean-ups keep the order. */
  lemma {:induction false} StrangersSplit(a: seq<Channel>, b: seq<Channel>, pid: nat)
    ensures Strangers(a + b, pid) == Strangers(a, pid) + Strangers(b, pid)
  {
    if b == [] {
      assert a + b == a;
    } else {
      var last := |b| - 1;
      StrangersSplit(a, b[..last], pid);
      assert (a + b)[..|a + b| - 1] == a + b[..last];
    }
  }

  lemma StrangersOfOne(c: Channel, pid: nat)
    ensures Strangers([c], pid) == if c.endpoint1 == pid || c.endpoint2 == pid then [] else [c]
  {
    assert [c][..0] == [];
  }

  /** How many channels have been created. */
  function Creations(events: seq<Event>): nat {
    if events == [] then 0
    else Creations(events[..|events| - 1]) + if events[|events| - 1].Created? then 1 else 0
  }

  lemma {:induction false} IdsCountCreations(steps: seq<Step>)
    ensures Run(EMPTY, steps).0.nextId == 1 + Creations(Run(EMPTY, steps).1)
  {
    if steps != [] {
      IdsCountCreations(steps[..|steps| - 1]);
    }
  }

  /** A message its creator may send on a new channel is accepted exactly when fewer than 1000 channels were
      created before it, removed ones included. */
  lemma NewChannelUsableIff(steps: seq<Step>, caller: nat, target: nat, msgType: nat, ptr: nat, data: seq<Byte>)
    requires var r := Run(EMPTY, steps).0; CreateChannel(r, caller, target).1.Created?
    requires |data| <= 256 && ValidBuffer(ptr, |data|)
    ensures var (r, events) := Run(EMPTY, steps);
            var (grown, created) := CreateChannel(r, caller, target);
            SendMessage(grown, caller, created.id, msgType, ptr, data).1.Accepted? <==> Creations(events) < 1000
  {
    var (r, events) := Run(EMPTY, steps);
    var (grown, created) := CreateChannel(r, caller, target);
    IdsCountCreations(steps);
    ChannelsAreFifo(steps);
    FindLast(r.channels, grown.channels[|r.channels|]);
  }

  lemma FindLast(cs: seq<Channel>, c: Channel)
    requires forall i :: 0 <= i < |cs| ==> cs[i].id != c.id
    ensures Find(cs + [c], c.id) == |cs|
  {
    assert (cs + [c])[|cs|] == c;
    assert forall i :: 0 <= i < |cs| ==> (cs + [c])[i] == cs[i];
  }

  function Openings(n: nat): seq<Step> {
    if n == 0 then [] else Openings(n - 1) + [CreateStep(1, 2)]
  }

  lemma {:induction false} OpeningsCreate(n: nat)
    ensures Creations(Run(EMPTY, Openings(n)).1) == n
  {
    if n > 0 {
      OpeningsCreate(n - 1);
      var (r, events) := Run(EMPTY, Openings(n - 1));
      RunSnoc(EMPTY, Openings(n - 1), CreateStep(1, 2));
      hide Run;
      CreationsSnoc(events, Created(r.nextId));
    }
  }

  lemma RunSnoc(r: Registry, steps: seq<Step>, last: Step)
    ensures var (before, events) := Run(r, steps);
            Run(r, steps + [last]) == (Apply(before, last).0, events + [Apply(before, last).1])
  {
    assert (steps + [last])[..|steps|] == steps;
  }

  lemma CreationsSnoc(events: seq<Event>, e: Event)
    ensures Creations(events + [e]) == Creations(events) + if e.Created? then 1 else 0
  {
    assert (events + [e])[..|events|] == events;
  }

  /** After a thousand channels the next one is created and cannot be used. */
  lemma ThousandAndFirstIsUnusable(data: seq<Byte>)
    requires |data| <= 256
    ensures var r := Run(EMPTY, Openings(1000)).0;
            var (grown, created) := CreateChannel(r, 1, 2);
            created.Created? && SendMessage(grown, 1, created.id, 0, 0, data).1 == Refused
  {
    OpeningsCreate(1000);
    NewChannelUsableIff(Openings(1000), 1, 2, 0, 0, data);
  }

  /** A step on one channel leaves every other channel untouched, queues and all. */
  lemma OtherChannelsUntouched(r: Registry, step: Step, k: nat)
    requires k < |r.channels| && (step.SendStep? || step.ReceiveStep?) && step.id != r.channels[k].id
    ensures var r' := Apply(r, step).0; |r'.channels| == |r.channels| && r'.channels[k] == r.channels[k]
  {
  }

  /** The events of a run are those of its steps, each in the state its predecessors left. */
  lemma {:induction false} RunEvent(r: Registry, steps: seq<Step>, i: nat)
    requires i < |steps|
    ensures |Run(r, steps).1| == |steps|
    ensures Run(r, steps).1[..i] == Run(r, steps[..i]).1
    ensures Run(r, steps).1[i] == Apply(Run(r, steps[..i]).0, steps[i]).1
  {
    var last := |steps| - 1;
    if i < last {
      RunEvent(r, steps[..last], i);
      assert steps[..last][..i] == steps[..i];
    } else if last > 0 {
      RunEvent(r, steps[..last], last - 1);
    }
  }

  lemma {:induction false} SentWasAccepted(events: seq<Event>, id: nat, from: nat, n: nat) returns (i: nat)
    requires n < |Sent(events, id, from)|
    ensures i < |events| && events[i] == Accepted(id, from, Sent(events, id, from)[n])
  {
    var last := |events| - 1;
    var before := Sent(events[..last], id, from);
    if n < |before| {
      i := SentWasAccepted(events[..last], id, from, n);
    } else {
      i := last;
    }
  }

  /** Step `j` delivered what step `i` sent: same channel, the bytes cut to the receiver's buffer. */
  ghost predicate Transmits(steps: seq<Step>, events: seq<Event>, i: nat, j: nat) {
    && i < j < |steps| == |events|
    && steps[i].SendStep? && steps[j].ReceiveStep? && events[j].Delivered?
    && events[i] == Accepted(steps[j].id, steps[i].caller, events[j].message)
    && steps[i].id == steps[j].id && steps[i].caller != steps[j].caller
    && events[j].message.sender == steps[i].caller
    && events[j].copied == steps[i].data[..Min(|steps[i].data|, steps[j].size)]
  }

  /** The n-th message an endpoint receives on a channel is the n-th accepted from the other endpoint. */
  lemma NthReceivedIsNthSent(steps: seq<Step>, j: nat, events: seq<Event>)
    requires j < |steps| && events == Run(EMPTY, steps).1 && |events| == |steps| && events[j].Delivered?
    ensures var e := events[j];
            var n := |Got(events[..j], e.channel, e.to)|;
            && steps[j].ReceiveStep? && steps[j].id == e.channel && steps[j].caller == e.to
            && exists from ::
                 && from != e.to && n < |Sent(events[..j], e.channel, from)|
                 && Sent(events[..j], e.channel, from)[n] == e.message
  {
    hide Sent, Got;
    var e := events[j];
    RunEvent(EMPTY, steps, j);
    ChannelsAreFifo(steps[..j]);
    var r := Run(EMPTY, steps[..j]).0;
    var c := r.channels[Find(r.channels, e.channel)];
    assert InStep(c, events[..j]);
    var from := if e.to == c.endpoint1 then c.endpoint2 else c.endpoint1;
    assert from != e.to && Sent(events[..j], e.channel, from)[|Got(events[..j], e.channel, e.to)|] == e.message;
  }

  /** End to end, over every run: each delivery hands over a message that an earlier step sent from the
      other endpoint, and copies exactly its first min(length, buffer size) bytes. */
  lemma DeliveriesAreSends(steps: seq<Step>, j: nat)
    requires j < |steps| && |Run(EMPTY, steps).1| == |steps| && Run(EMPTY, steps).1[j].Delivered?
    ensures exists i :: Transmits(steps, Run(EMPTY, steps).1, i, j)
  {
    hide Sent, Got;
    var events := Run(EMPTY, steps).1;
    var e := events[j];
    NthReceivedIsNthSent(steps, j, events);
    var n := |Got(events[..j], e.channel, e.to)|;
    var from :| from != e.to && n < |Sent(events[..j], e.channel, from)| &&
        Sent(events[..j], e.channel, from)[n] == e.message;
    var i := SentWasAccepted(events[..j], e.channel, from, n);
    RunEvent(EMPTY, steps, i);
    RunEvent(EMPTY, steps, j);
    AcceptedIsSend(Run(EMPTY, steps[..i]).0, steps[i]);
    CopyIsPrefix(Run(EMPTY, steps[..j]).0, steps[j], steps[i].caller, steps[i].msgType % 0x1_0000_0000, steps[i].data);
    assert Transmits(steps, events, i, j);
  }

  lemma AcceptedIsSend(r: Registry, step: Step)
    requires Apply(r, step).1.Accepted?
    ensures step.SendStep? && |step.data| <= 256
    ensures Apply(r, step).1 ==
            Accepted(step.id, step.caller, NewMessage(step.caller, step.msgType % 0x1_0000_0000, step.data))
  {
  }

  lemma CopyIsPrefix(r: Registry, step: Step, sender: nat, msgType: nat, data: seq<Byte>)
    requires step.ReceiveStep? && Apply(r, step).1.Delivered? && |data| <= 256
    requires Apply(r, step).1.message == NewMessage(sender, msgType, data)
    ensures Apply(r, step).1.copied == data[..Min(|data|, step.size)]
  {
  }
}
