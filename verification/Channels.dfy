/** Message channels of src/ipc.rs behind syscalls 2, 3 and 4 of src/syscall.rs, on values. */
module ChannelSpec {
  import opened Basics
  import SchedulerSpec

  const MAX_QUEUE_SIZE: nat := 1000
  const MESSAGE_SIZE: nat := 256

  type Payload = d: seq<Byte> | |d| == MESSAGE_SIZE witness Zeros(MESSAGE_SIZE)

  datatype Message = Message(sender: nat, msgType: nat, data: Payload, dataLen: nat)

  datatype Channel = Channel(id: nat, endpoint1: nat, endpoint2: nat, queue1to2: seq<Message>, queue2to1: seq<Message>)
  {
    predicate HasEndpoint(pid: nat) {
      pid == endpoint1 || pid == endpoint2
    }
  }

  datatype Registry = Registry(channels: seq<Channel>, nextId: nat)

  /** What a syscall did. */
  datatype Event =
    | Refused
    | Created(id: nat)
    | Accepted(channel: nat, from: nat, message: Message)
    | Delivered(channel: nat, to: nat, message: Message, copied: seq<Byte>)
    | NoMessage
    | Closed(pid: nat)

  function Zeros(n: nat): (r: seq<Byte>)
    ensures |r| == n
  {
    if n == 0 then [] else [0] + Zeros(n - 1)
  }

  /** A message holds at most 256 bytes, zero-padded. */
  function NewMessage(sender: nat, msgType: nat, data: seq<Byte>): (m: Message)
    ensures m.dataLen == Min(|data|, MESSAGE_SIZE)
    ensures m.data[..m.dataLen] == data[..Min(|data|, MESSAGE_SIZE)]
  {
    var len := Min(|data|, MESSAGE_SIZE);
    Message(sender, msgType, data[..len] + Zeros(MESSAGE_SIZE - len), len)
  }

  // ----- one channel

  function Send(c: Channel, sender: nat, m: Message): Option<Channel> {
    if sender == c.endpoint1 then
      if |c.queue1to2| >= MAX_QUEUE_SIZE then None else Some(c.(queue1to2 := c.queue1to2 + [m]))
    else if sender == c.endpoint2 then
      if |c.queue2to1| >= MAX_QUEUE_SIZE then None else Some(c.(queue2to1 := c.queue2to1 + [m]))
    else None
  }

  function Receive(c: Channel, receiver: nat): (Channel, Option<Message>) {
    if receiver == c.endpoint1 then
      if c.queue2to1 == [] then (c, None) else (c.(queue2to1 := c.queue2to1[1..]), Some(c.queue2to1[0]))
    else if receiver == c.endpoint2 then
      if c.queue1to2 == [] then (c, None) else (c.(queue1to2 := c.queue1to2[1..]), Some(c.queue1to2[0]))
    else (c, None)
  }

  // ----- the registry

  /** The first channel with the given id, or the number of channels. */
  function Find(cs: seq<Channel>, id: nat): (k: nat)
    ensures k <= |cs|
    ensures k < |cs| ==> cs[k].id == id
    ensures forall i :: 0 <= i < k ==> cs[i].id != id
  {
    if cs == [] then 0
    else if cs[0].id == id then 0
    else 1 + Find(cs[1..], id)
  }

  function CreateChannel(r: Registry, caller: nat, target: nat): (Registry, Event) {
    if target == 0 || target > 10000 || caller == target then (r, Refused)
    else (Registry(r.channels + [Channel(r.nextId, caller, target, [], [])], r.nextId + 1), Created(r.nextId))
  }

  predicate ValidChannelId(id: nat) {
    0 < id <= 1000
  }

  predicate ValidBuffer(ptr: nat, len: nat) {
    ptr == 0 || SchedulerSpec.ValidUserPointer(ptr, len)
  }

  /** `data` is what the caller's buffer at `ptr` holds. */
  function SendMessage(r: Registry, caller: nat, id: nat, msgType: nat, ptr: nat, data: seq<Byte>): (Registry, Event) {
    if !ValidChannelId(id) || |data| > 256 || !ValidBuffer(ptr, |data|) then (r, Refused)
    else
      var k := Find(r.channels, id);
      var m := NewMessage(caller, msgType % 0x1_0000_0000, data);
      if k == |r.channels| then (r, Refused)
      else
        var sent := Send(r.channels[k], caller, m);
        if sent.None? then (r, Refused)
        else (r.(channels := r.channels[k := sent.value]), Accepted(id, caller, m))
  }

  function ReceiveMessage(r: Registry, caller: nat, id: nat, ptr: nat, size: nat): (Registry, Event) {
    if !ValidChannelId(id) || size > 256 || !ValidBuffer(ptr, size) then (r, Refused)
    else
      var k := Find(r.channels, id);
      if k == |r.channels| then (r, Refused)
      else
        var (c, m) := Receive(r.channels[k], caller);
        if m.None? then (r.(channels := r.channels[k := c]), NoMessage)
        else
          var len := Min(m.value.dataLen, size);
          (r.(channels := r.channels[k := c]),
           Delivered(id, caller, m.value, m.value.data[..len]))
  }

  function Without(cs: seq<Channel>, id: nat): seq<Channel> {
    if cs == [] then []
    else
      var last := |cs| - 1;
      Without(cs[..last], id) + (if cs[last].id != id then [cs[last]] else [])
  }

  /** The channels `pid` is not an endpoint of, in order. */
  function Strangers(cs: seq<Channel>, pid: nat): seq<Channel> {
    if cs == [] then []
    else
      var last := |cs| - 1;
      Strangers(cs[..last], pid) + (if cs[last].HasEndpoint(pid) then [] else [cs[last]])
  }

  function IdsOf(cs: seq<Channel>, pid: nat): seq<nat> {
    if cs == [] then []
    else
      var last := |cs| - 1;
      IdsOf(cs[..last], pid) + (if cs[last].HasEndpoint(pid) then [cs[last].id] else [])
  }

  function WithoutAll(cs: seq<Channel>, ids: seq<nat>): seq<Channel> {
    if ids == [] then cs else Without(WithoutAll(cs, ids[..|ids| - 1]), ids[|ids| - 1])
  }

  /** First the ids are collected, then each is removed by a pass of its own. */
  function CleanupChannels(r: Registry, pid: nat): (Registry, Event) {
    (r.(channels := WithoutAll(r.channels, IdsOf(r.channels, pid))), Closed(pid))
  }

  // ----- runs

  datatype Step =
    | CreateStep(caller: nat, target: nat)
    | SendStep(caller: nat, id: nat, msgType: nat, ptr: nat, data: seq<Byte>)
    | ReceiveStep(caller: nat, id: nat, ptr: nat, size: nat)
    | CleanupStep(pid: nat)

  function Apply(r: Registry, step: Step): (Registry, Event) {
    match step
    case CreateStep(caller, target) => CreateChannel(r, caller, target)
    case SendStep(caller, id, msgType, ptr, data) => SendMessage(r, caller, id, msgType, ptr, data)
    case ReceiveStep(caller, id, ptr, size) => ReceiveMessage(r, caller, id, ptr, size)
    case CleanupStep(pid) => CleanupChannels(r, pid)
  }

  function Run(r: Registry, steps: seq<Step>): (Registry, seq<Event>) {
    if steps == [] then (r, [])
    else
      var last := |steps| - 1;
      var (before, events) := Run(r, steps[..last]);
      var (after, event) := Apply(before, steps[last]);
      (after, events + [event])
  }

  const EMPTY: Registry := Registry([], 1)
}

/** The registry object. */
module ChannelObject {
  import opened Basics
  import opened ChannelSpec

  class ChannelRegistry {
    var channels: seq<Channel>
    var nextId: nat

    ghost function State(): Registry
      reads this
    {
      Registry(channels, nextId)
    }

    constructor ()
      ensures State() == EMPTY
    {
      channels, nextId := [], 1;
    }

    method Position(id: nat) returns (k: nat)
      ensures k == Find(channels, id)
    {
      k := 0;
      while k < |channels| && channels[k].id != id
        invariant k <= |channels|
        invariant forall i :: 0 <= i < k ==> channels[i].id != id
      {
        k := k + 1;
      }
    }

    method CreateChannel(caller: nat, target: nat) returns (event: Event)
      modifies this
      ensures (State(), event) == ChannelSpec.CreateChannel(old(State()), caller, target)
    {
      if target == 0 || target > 10000 || caller == target {
        return Refused;
      }
      var id := nextId;
      nextId := nextId + 1;
      channels := channels + [Channel(id, caller, target, [], [])];
      event := Created(id);
    }

    method SendMessage(caller: nat, id: nat, msgType: nat, ptr: nat, data: seq<Byte>) returns (event: Event)
      modifies this
      ensures (State(), event) == ChannelSpec.SendMessage(old(State()), caller, id, msgType, ptr, data)
    {
      if id == 0 || id > 1000 || |data| > 256 || !ValidBuffer(ptr, |data|) {
        return Refused;
      }
      var message := NewMessage(caller, msgType % 0x1_0000_0000, data);
      var k := Position(id);
      if k == |channels| {
        return Refused;
      }
      var channel := channels[k];
      if caller == channel.endpoint1 {
        if |channel.queue1to2| >= MAX_QUEUE_SIZE {
          return Refused;
        }
        channel := channel.(queue1to2 := channel.queue1to2 + [message]);
      } else if caller == channel.endpoint2 {
        if |channel.queue2to1| >= MAX_QUEUE_SIZE {
          return Refused;
        }
        channel := channel.(queue2to1 := channel.queue2to1 + [message]);
      } else {
        return Refused;
      }
      channels := channels[k := channel];
      event := Accepted(id, caller, message);
    }

    method ReceiveMessage(caller: nat, id: nat, ptr: nat, size: nat) returns (event: Event)
      modifies this
      ensures (State(), event) == ChannelSpec.ReceiveMessage(old(State()), caller, id, ptr, size)
    {
      if id == 0 || id > 1000 || size > 256 || !ValidBuffer(ptr, size) {
        return Refused;
      }
      var k := Position(id);
      if k == |channels| {
        return Refused;
      }
      var (channel, message) := Receive(channels[k], caller);
      channels := channels[k := channel];
      if message.None? {
        return NoMessage;
      }
      var len := Min(message.value.dataLen, size);
      event := Delivered(id, caller, message.value, message.value.data[..len]);
    }

    /** One `retain` pass. */
    method RemoveChannel(id: nat)
      modifies this`channels
      ensures channels == Without(old(channels), id)
    {
      var kept: seq<Channel> := [];
      var i := 0;
      while i < |channels|
        modifies {}
        invariant i <= |channels|
        invariant kept == Without(channels[..i], id)
      {
        assert channels[..i + 1][..i] == channels[..i];
        if channels[i].id != id {
          kept := kept + [channels[i]];
        }
        i := i + 1;
      }
      assert channels[..i] == channels;
      channels := kept;
    }

    method CleanupProcessChannels(pid: nat)
      modifies this
      ensures State() == CleanupChannels(old(State()), pid).0
    {
      var ids: seq<nat> := [];
      var i := 0;
      while i < |channels|
        modifies {}
        invariant i <= |channels|
        invariant ids == IdsOf(channels[..i], pid)
      {
        assert channels[..i + 1][..i] == channels[..i];
        if channels[i].HasEndpoint(pid) {
          ids := ids + [channels[i].id];
        }
        i := i + 1;
      }
      assert channels[..i] == channels;
      var n := 0;
      while n < |ids|
        modifies this`channels
        invariant n <= |ids|
        invariant channels == WithoutAll(old(channels), ids[..n])
      {
        assert ids[..n + 1][..n] == ids[..n];
        RemoveChannel(ids[n]);
        n := n + 1;
      }
      assert ids[..n] == ids;
    }
  }
}
