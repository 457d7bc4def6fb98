/** `ChannelsService`: the registry that hands every component the one
    channel (publish/subscribe subject) or queue known by a given name,
    creating it on first use. */
module Channels {

  /** A channel object; what it delivers is not part of this model. */
  class Channel {
    constructor()
    {
    }
  }

  /** An asyncio queue object; its contents are not part of this model. */
  class Queue {
    constructor()
    {
    }
  }

  class ChannelsService {
    var channels: map<string, Channel>
    var queues: map<string, Queue>

    constructor()
      ensures channels == map[] && queues == map[]
    {
      channels := map[];
      queues := map[];
    }

    /** `get_channel(name)`: the registered channel, or a fresh one that is
        registered under `name`; nothing else changes. */
    method GetChannel(name: string) returns (c: Channel)
      modifies this
      ensures name in old(channels) ==> c == old(channels)[name] && channels == old(channels)
      ensures name !in old(channels) ==> fresh(c) && channels == old(channels)[name := c]
      ensures name in channels && channels[name] == c
      ensures queues == old(queues)
    {
      if name in channels {
        c := channels[name];
      } else {
        c := new Channel();
        channels := channels[name := c];
      }
    }

    /** `get_queue(name)`: the same create-on-first-use rule for queues. */
    method GetQueue(name: string) returns (q: Queue)
      modifies this
      ensures name in old(queues) ==> q == old(queues)[name] && queues == old(queues)
      ensures name !in old(queues) ==> fresh(q) && queues == old(queues)[name := q]
      ensures name in queues && queues[name] == q
      ensures channels == old(channels)
    {
      if name in queues {
        q := queues[name];
      } else {
        q := new Queue();
        queues := queues[name := q];
      }
    }
  }

  /** Two components asking for the same name get the same object, and the
      registries only grow. */
  method SameNameSameChannel(registry: ChannelsService, name: string, other: string)
    returns (first: Channel, second: Channel, q: Queue)
    modifies registry
    ensures first == second
    ensures old(registry.channels).Keys <= registry.channels.Keys
    ensures old(registry.queues).Keys <= registry.queues.Keys
    ensures forall n :: n in old(registry.channels) ==> registry.channels[n] == old(registry.channels)[n]
    ensures forall n :: n in old(registry.queues) ==> registry.queues[n] == old(registry.queues)[n]
  {
    first := registry.GetChannel(name);
    q := registry.GetQueue(other);
    second := registry.GetChannel(name);
  }
}
