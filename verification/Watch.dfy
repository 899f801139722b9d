/**
 * The watch hub: bounded queues of update events, one per subscriber, over any interleaving with the manager and
 * receivers.
 */
module Watch {
  import opened Wrappers

  /** An event names the snapshot it was made from by its generation. */
  datatype Event = Event(generation: nat, resync: bool)

  datatype Ending = Open | Cancelled | Overflowed

  /** A subscriber's channel: what is queued, what its receiver has taken, how often it was closed, and why. */
  datatype Channel = Channel(queue: seq<Event>, received: seq<Event>, closes: nat, ending: Ending)

  /** What a new subscriber is told: the current snapshot, or, with none published yet, to come back for one. */
  function FirstEvent(generation: nat): Event {
    Event(generation, generation == 0)
  }

  function NewChannel(generation: nat): Channel {
    Channel([FirstEvent(generation)], [], 0, Open)
  }

  /** One publication reaching one subscriber: queued if there is room, else the queue gives way to a final resync. */
  function Deliver(ch: Channel, generation: nat, queueSize: nat): Channel {
    if |ch.queue| < queueSize then ch.(queue := ch.queue + [Event(generation, false)])
    else ch.(queue := [Event(generation, true)], closes := ch.closes + 1, ending := Overflowed)
  }

  function CloseChannel(ch: Channel): Channel {
    ch.(closes := ch.closes + 1, ending := Cancelled)
  }

  function Take(ch: Channel): Channel {
    if ch.queue == [] then ch else ch.(queue := ch.queue[1..], received := ch.received + [ch.queue[0]])
  }

  class WatchHub {
    const queueSize: nat
    const maxSubscribers: nat
    var nextID: nat
    var subscribers: set<nat>
    /** Every channel ever handed out; the hub itself only reaches those of its subscribers. */
    var channels: map<nat, Channel>

    predicate Valid()
      reads this
    {
      && queueSize > 0 && |subscribers| <= maxSubscribers && subscribers <= channels.Keys
      && (forall id :: id in channels ==> id <= nextID && |channels[id].queue| <= queueSize && channels[id].closes <= 1)
      && (forall id :: id in channels ==> (id in subscribers <==> channels[id].closes == 0))
      && (forall id :: id in channels ==> (channels[id].ending == Open <==> channels[id].closes == 0))
    }

    /** The hub is where the state machine below is. */
    ghost predicate Matches(s: State)
      reads this
    {
      s.queueSize == queueSize && s.maxSubscribers == maxSubscribers && s.channels == channels
    }

    constructor (queueSize: nat, maxSubscribers: nat)
      requires queueSize > 0 && maxSubscribers > 0
      ensures Valid() && channels == map[] && this.queueSize == queueSize && this.maxSubscribers == maxSubscribers
      ensures Matches(Start(queueSize, maxSubscribers))
    {
      this.queueSize, this.maxSubscribers := queueSize, maxSubscribers;
      nextID, subscribers, channels := 0, {}, map[];
    }

    /** `current` is the generation of the current snapshot, 0 when there is none. */
    method Subscribe(current: nat) returns (id: Option<nat>)
      requires Valid()
      modifies this
      ensures Valid()
      ensures forall s :: old(Matches(s)) && s.stored == current ==> Matches(Next(s, Step.Subscribe(nextID)))
      ensures id.None? <==> |old(subscribers)| >= maxSubscribers
      ensures id.None? ==> channels == old(channels) && subscribers == old(subscribers) && nextID == old(nextID)
      ensures id.Some? ==>
                && id.value == old(nextID) + 1 && id.value !in old(channels) && nextID == id.value
                && channels == old(channels)[id.value := NewChannel(current)]
                && subscribers == old(subscribers) + {id.value}
    {
      assert OpenChannels(channels) == subscribers;
      if |subscribers| >= maxSubscribers { return None; }
      nextID := nextID + 1;
      assert nextID !in channels;
      channels := channels[nextID := NewChannel(current)];
      subscribers := subscribers + {nextID};
      return Some(nextID);
    }

    /**
     * Every subscriber gets the event; one that has no room is drained, told to resync, closed and dropped.
     * Without a snapshot (generation 0) nothing happens.
     */
    method Publish(generation: nat)
      requires Valid()
      modifies this`channels, this`subscribers
      ensures Valid()
      ensures generation == 0 ==> channels == old(channels) && subscribers == old(subscribers)
      ensures channels.Keys == old(channels).Keys
      ensures generation > 0 ==> forall id :: id in channels ==>
                channels[id] == if id in old(subscribers) then Deliver(old(channels)[id], generation, queueSize)
                else old(channels)[id]
      ensures generation > 0 ==> subscribers == set id | id in old(subscribers) && |old(channels)[id].queue| < queueSize
      ensures forall s :: old(Matches(s)) && s.unpublished && s.stored == generation > 0 ==>
                Matches(Next(s, Step.Publish))
    {
      if generation == 0 { return; }
      channels, subscribers := DeliverAll(channels, subscribers, generation, queueSize);
      SmallerSet(subscribers, old(subscribers));
    }

    /** Cancelling twice, or after the hub has closed the channel, does nothing. */
    method Remove(id: nat)
      requires Valid()
      modifies this
      ensures Valid() && nextID == old(nextID) && subscribers == old(subscribers) - {id}
      ensures forall s :: old(Matches(s)) ==> Matches(Next(s, Step.Cancel(id)))
      ensures channels == if id in old(subscribers) then old(channels)[id := CloseChannel(old(channels)[id])]
              else old(channels)
    {
      if id in subscribers {
        channels := channels[id := CloseChannel(channels[id])];
        subscribers := subscribers - {id};
      }
    }

    /** The receiver's side of the channel. */
    method Receive(id: nat) returns (e: Option<Event>)
      requires Valid()
      modifies this`channels
      ensures Valid()
      ensures forall s :: old(Matches(s)) ==> Matches(Next(s, Step.Receive(id)))
      ensures channels == if id in old(channels) then old(channels)[id := Take(old(channels)[id])] else old(channels)
      ensures e == if id in old(channels) && old(channels)[id].queue != [] then Some(old(channels)[id].queue[0])
                   else None
    {
      if id !in channels || |channels[id].queue| == 0 {
        return None;
      }
      e := Some(channels[id].queue[0]);
      channels := channels[id := Take(channels[id])];
    }
  }

  /** The publication reaches the subscribers one by one, in any order. */
  method DeliverAll(channels: map<nat, Channel>, subscribers: set<nat>, generation: nat, queueSize: nat)
    returns (after: map<nat, Channel>, remaining: set<nat>)
    requires subscribers <= channels.Keys
    ensures after.Keys == channels.Keys
    ensures forall id :: id in after ==>
              after[id] == if id in subscribers then Deliver(channels[id], generation, queueSize) else channels[id]
    ensures remaining == set id | id in subscribers && |channels[id].queue| < queueSize
  {
    after, remaining := channels, subscribers;
    var left := subscribers;
    while left != {}
      invariant left <= subscribers && after.Keys == channels.Keys
      invariant forall id :: id in after ==>
                  after[id] ==
                    if id in subscribers && id !in left then Deliver(channels[id], generation, queueSize)
                    else channels[id]
      invariant remaining == set id | id in subscribers && (id in left || |channels[id].queue| < queueSize)
      decreases left
    {
      var id :| id in left;
      var ch := after[id];
      if |ch.queue| < queueSize {
        ch := ch.(queue := ch.queue + [Event(generation, false)]);
      } else {
        var queue := ch.queue;
        while |queue| > 0
          decreases |queue|
        {
          queue := queue[1..];
        }
        ch := ch.(queue := queue + [Event(generation, true)], closes := ch.closes + 1, ending := Overflowed);
        remaining := remaining - {id};
      }
      assert ch == Deliver(channels[id], generation, queueSize);
      after := after[id := ch];
      left := left - {id};
    }
  }

  lemma SmallerSet(a: set<nat>, b: set<nat>)
    requires a <= b
    ensures |a| <= |b|
  {
    assert b == a + (b - a);
  }

  // ----- every interleaving -----

  /**
   * The manager stores a new generation and then publishes it; in between a new subscriber already sees it.
   * `log` is every publication, `from` where in the log each channel's stream starts, `firsts` its first event.
   */
  datatype State = State(
    queueSize: nat, maxSubscribers: nat, stored: nat, unpublished: bool, log: seq<nat>,
    channels: map<nat, Channel>, from: map<nat, nat>, firsts: map<nat, nat>)

  datatype Step =
    | Store(generation: nat)
    | Publish
    | Subscribe(id: nat)
    | Cancel(id: nat)
    | Receive(id: nat)

  /** Nothing stored, nothing published, nobody subscribed. */
  function Start(queueSize: nat, maxSubscribers: nat): (r: State)
    ensures queueSize > 0 ==> Inv(r)
  {
    State(queueSize, maxSubscribers, 0, false, [], map[], map[], map[])
  }

  function OpenChannels(channels: map<nat, Channel>): set<nat> {
    set id | id in channels && channels[id].ending == Open
  }

  function Next(s: State, step: Step): State {
    match step
    case Store(g) => if s.unpublished || g <= s.stored then s else s.(stored := g, unpublished := true)
    case Publish =>
      if !s.unpublished then s
      else s.(unpublished := false, log := s.log + [s.stored],
              channels := map id | id in s.channels ::
                if s.channels[id].ending == Open then Deliver(s.channels[id], s.stored, s.queueSize)
                   else s.channels[id])
    case Subscribe(id) =>
      if id in s.channels || |OpenChannels(s.channels)| >= s.maxSubscribers then s
      else s.(channels := s.channels[id := NewChannel(s.stored)], from := s.from[id := |s.log|],
              firsts := s.firsts[id := s.stored])
    case Cancel(id) =>
      if id in s.channels && s.channels[id].ending == Open
      then s.(channels := s.channels[id := CloseChannel(s.channels[id])])
      else s
    case Receive(id) => if id in s.channels then s.(channels := s.channels[id := Take(s.channels[id])]) else s
  }

  /** What a channel has carried so far. */
  function Carried(ch: Channel): seq<Event> {
    ch.received + ch.queue
  }

  function Plain(generations: seq<nat>): seq<Event> {
    seq(|generations|, i requires 0 <= i < |generations| => Event(generations[i], false))
  }

  /** The stream an attentive subscriber is owed: its first event, then every publication since. */
  function Owed(first: nat, log: seq<nat>, from: nat): seq<Event>
    requires from <= |log|
  {
    [FirstEvent(first)] + Plain(log[from..])
  }

  predicate IsPrefix(a: seq<Event>, b: seq<Event>) {
    |a| <= |b| && b[..|a|] == a
  }

  predicate Told(ch: Channel, first: nat, log: seq<nat>, from: nat)
    requires from <= |log|
  {
    match ch.ending
    case Open => Carried(ch) == Owed(first, log, from)
    case Cancelled => IsPrefix(Carried(ch), Owed(first, log, from))
    case Overflowed =>
      var all := Carried(ch);
      && all != [] && IsPrefix(all[..|all| - 1], Owed(first, log, from))
      && all[|all| - 1].resync
      && exists k ::
           from <= k < |log| && log[k] == all[|all| - 1].generation && |all| - 1 <= k - from + 1
  }

  predicate Bounded(ch: Channel, queueSize: nat) {
    |ch.queue| <= queueSize && ch.closes == (if ch.ending == Open then 0 else 1)
  }

  predicate Rising(log: seq<nat>) {
    forall i, j :: 0 <= i < j < |log| ==> log[i] < log[j]
  }

  predicate ChannelInv(s: State, id: nat)
    requires id in s.channels
  {
    && id in s.from && id in s.firsts && s.from[id] <= |s.log|
    && s.firsts[id] <= s.stored && (s.from[id] == |s.log| && !s.unpublished ==> s.firsts[id] == s.stored)
    && (forall k :: s.from[id] <= k < |s.log| ==> s.firsts[id] <= s.log[k])
    && Told(s.channels[id], s.firsts[id], s.log, s.from[id]) && Bounded(s.channels[id], s.queueSize)
  }

  predicate Inv(s: State) {
    && s.queueSize > 0 && |OpenChannels(s.channels)| <= s.maxSubscribers
    && Rising(s.log) && (s.log != [] && !s.unpublished ==> s.log[|s.log| - 1] == s.stored)
    && (forall i :: 0 <= i < |s.log| ==> if s.unpublished then s.log[i] < s.stored else s.log[i] <= s.stored)
    && (forall id :: id in s.channels ==> ChannelInv(s, id))
  }

  lemma OwedGrows(first: nat, log: seq<nat>, from: nat, generation: nat)
    requires from <= |log|
    ensures Owed(first, log + [generation], from) == Owed(first, log, from) + [Event(generation, false)]
  {
    assert (log + [generation])[from..] == log[from..] + [generation];
  }

  lemma StillToldAfterMore(ch: Channel, first: nat, log: seq<nat>, from: nat, generation: nat)
    requires from <= |log| && Told(ch, first, log, from) && ch.ending != Open
    ensures Told(ch, first, log + [generation], from)
  {
    OwedGrows(first, log, from, generation);
    var all, more := Carried(ch), log + [generation];
    if ch.ending == Overflowed {
      var k :| from <= k < |log| && log[k] == all[|all| - 1].generation && |all| - 1 <= k - from + 1;
      assert more[k] == log[k];
    }
  }

  lemma DeliveredIsTold(ch: Channel, first: nat, log: seq<nat>, from: nat, generation: nat, queueSize: nat)
    requires from <= |log| && Told(ch, first, log, from) && ch.ending == Open
    ensures Told(Deliver(ch, generation, queueSize), first, log + [generation], from)
  {
    OwedGrows(first, log, from, generation);
    var next, more := Deliver(ch, generation, queueSize), log + [generation];
    if |ch.queue| < queueSize {
      assert Carried(next) == Carried(ch) + [Event(generation, false)];
    } else {
      var all := Carried(next);
      assert all[..|all| - 1] == ch.received;
      assert Carried(ch)[..|ch.received|] == ch.received;
      assert IsPrefix(ch.received, Owed(first, more, from));
      assert more[|log|] == generation;
    }
  }

  lemma TakenIsTold(ch: Channel, first: nat, log: seq<nat>, from: nat)
    requires from <= |log| && Told(ch, first, log, from)
    ensures Told(Take(ch), first, log, from)
  {
    assert Carried(Take(ch)) == Carried(ch);
  }

  lemma PublishKeepsChannel(s: State, id: nat)
    requires Inv(s) && id in s.channels && s.unpublished
    ensures ChannelInv(Next(s, Publish), id)
  {
    assert ChannelInv(s, id);
    var ch := s.channels[id];
    if ch.ending == Open {
      DeliveredIsTold(ch, s.firsts[id], s.log, s.from[id], s.stored, s.queueSize);
    } else {
      StillToldAfterMore(ch, s.firsts[id], s.log, s.from[id], s.stored);
    }
  }

  lemma QuietStepKeepsChannel(s: State, step: Step, id: nat)
    requires Inv(s) && id in Next(s, step).channels && !(step.Publish? && s.unpublished)
    ensures ChannelInv(Next(s, step), id)
  {
    hide Told, OpenChannels, Rising;
    if id in s.channels {
      assert ChannelInv(s, id);
      TakenIsTold(s.channels[id], s.firsts[id], s.log, s.from[id]);
      CancelledIsTold(s.channels[id], s.firsts[id], s.log, s.from[id]);
    } else {
      NewIsTold(s.stored, s.log);
    }
  }

  lemma StepKeepsLimit(s: State, step: Step)
    requires |OpenChannels(s.channels)| <= s.maxSubscribers
    ensures |OpenChannels(Next(s, step).channels)| <= s.maxSubscribers
  {
    var before, after := OpenChannels(s.channels), OpenChannels(Next(s, step).channels);
    if step.Subscribe? && step.id !in s.channels && |before| < s.maxSubscribers {
      assert after == before + {step.id};
    } else {
      forall id | id in after ensures id in before {}
      SmallerSet(after, before);
    }
  }

  lemma StepKeepsInv(s: State, step: Step)
    requires Inv(s)
    ensures Inv(Next(s, step))
  {
    hide ChannelInv, OpenChannels;
    var next := Next(s, step);
    StepKeepsLimit(s, step);
    forall id | id in next.channels ensures ChannelInv(next, id) {
      if step.Publish? && s.unpublished {
        PublishKeepsChannel(s, id);
      } else {
        QuietStepKeepsChannel(s, step, id);
      }
    }
  }

  lemma CancelledIsTold(ch: Channel, first: nat, log: seq<nat>, from: nat)
    requires from <= |log| && Told(ch, first, log, from)
    ensures ch.ending == Open ==> Told(CloseChannel(ch), first, log, from)
  {
  }

  lemma NewIsTold(first: nat, log: seq<nat>)
    ensures Told(NewChannel(first), first, log, |log|)
  {
    assert log[|log|..] == [];
  }

  function Run(s: State, steps: seq<Step>): (r: State)
    requires Inv(s)
    ensures Inv(r)
  {
    if steps == [] then s
    else
      StepKeepsInv(Run(s, steps[..|steps| - 1]), steps[|steps| - 1]);
      Next(Run(s, steps[..|steps| - 1]), steps[|steps| - 1])
  }

  /** Generations along a channel never fall. */
  predicate NonDecreasing(events: seq<Event>) {
    forall i, j :: 0 <= i < j < |events| ==> events[i].generation <= events[j].generation
  }

  lemma OwedNonDecreasing(first: nat, log: seq<nat>, from: nat)
    requires from <= |log| && Rising(log) && forall k :: from <= k < |log| ==> first <= log[k]
    ensures NonDecreasing(Owed(first, log, from))
  {
    var owed := [first] + log[from..];
    forall i | 0 < i < |owed| ensures owed[i] == log[from + i - 1] {}
  }

  /**
   * No silent gap. Whatever the interleaving, a subscriber's channel carries its first event and then every publication
   * since, in order, up to now; or a prefix of that, if it cancelled; or a prefix followed by one last event that asks
   * for a resync. Generations never fall, the channel is closed at most once, and
   * neither its queue nor the number of subscribers exceeds its limit.
   */
  lemma NoSilentGap(s: State, steps: seq<Step>, id: nat)
    requires Inv(s) && id in Run(s, steps).channels
    ensures var r := Run(s, steps);
            && id in r.from && id in r.firsts && r.from[id] <= |r.log|
            && Told(r.channels[id], r.firsts[id], r.log, r.from[id])
            && NonDecreasing(Carried(r.channels[id]))
            && |r.channels[id].queue| <= r.queueSize && r.channels[id].closes <= 1
            && |OpenChannels(r.channels)| <= r.maxSubscribers
  {
    hide Next;
    var r := Run(s, steps);
    assert ChannelInv(r, id);
    var ch, first, from := r.channels[id], r.firsts[id], r.from[id];
    OwedNonDecreasing(first, r.log, from);
    var owed, all := Owed(first, r.log, from), Carried(ch);
    if ch.ending == Overflowed {
      LastIsLatest(ch, first, r.log, from);
    } else {
      assert owed[..|all|] == all;
    }
  }

  lemma LastIsLatest(ch: Channel, first: nat, log: seq<nat>, from: nat)
    requires from <= |log| && Rising(log) && (forall k :: from <= k < |log| ==> first <= log[k])
    requires ch.ending == Overflowed && Told(ch, first, log, from)
    ensures NonDecreasing(Carried(ch))
  {
    var all, owed := Carried(ch), Owed(first, log, from);
    var k :| from <= k < |log| && log[k] == all[|all| - 1].generation && |all| - 1 <= k - from + 1;
    OwedNonDecreasing(first, log, from);
    forall i | 0 <= i < |all| - 1 ensures all[i] == owed[i] && all[i].generation <= log[k] {
      assert all[..|all| - 1][i] == all[i];
      if i > 0 {
        assert ([first] + log[from..])[i] == log[from + i - 1];
      }
    }
  }

  /** A subscriber that has taken everything from an open channel knows the newest publication. */
  lemma DrainedSubscriberIsCurrent(s: State, steps: seq<Step>, id: nat)
    requires Inv(s) && id in Run(s, steps).channels
    requires Run(s, steps).channels[id].ending == Open && Run(s, steps).channels[id].queue == []
    ensures var r := Run(s, steps);
            && r.channels[id].received != []
            && var newest := r.channels[id].received[|r.channels[id].received| - 1].generation;
               newest <= r.stored && (newest == r.stored || r.unpublished)
  {
    hide Next;
    var r := Run(s, steps);
    assert ChannelInv(r, id);
    var ch, first, from := r.channels[id], r.firsts[id], r.from[id];
    assert Carried(ch) == ch.received;
    var owed := [first] + r.log[from..];
    assert owed[|owed| - 1] == if from == |r.log| then first else r.log[|r.log| - 1];
  }
}
