/** The in-process event bus: subscriptions are bounded channels, and publishing never
    blocks. */
module EventBus {
  import opened GoTime
  import opened Text

  datatype Event = Event(id: string, kind: string, source: string, subject: string, data: map<string, string>, createdAt: Time)

  /** A Go channel: a closed one can still be drained but panics on a send or a close. */
  datatype Channel<T> = Channel(capacity: int, buffer: seq<T>, closed: bool)

  /** The identity of a channel. */
  datatype ChannelId = Chan(serial: int)

  /** select { case ch <- e: default: } on a channel that is open. */
  function Offer<T>(ch: Channel<T>, e: T): Channel<T> {
    if |ch.buffer| < ch.capacity then ch.(buffer := ch.buffer + [e]) else ch
  }

  /** after is before with the event offered once to every subscribed channel. */
  ghost predicate OfferedToAll<T(!new)>(before: map<ChannelId, Channel<T>>, after: map<ChannelId, Channel<T>>, subs: set<ChannelId>, e: T) {
    && after.Keys == before.Keys
    && forall c :: c in before ==> after[c] == if c in subs then Offer(before[c], e) else before[c]
  }

  /** Subscribed channels are open, and no channel holds more than its capacity. */
  ghost predicate Open<T(!new)>(subs: set<ChannelId>, channels: map<ChannelId, Channel<T>>) {
    && subs <= channels.Keys
    && (forall c :: c in subs ==> !channels[c].closed)
    && (forall c :: c in channels ==> 1 <= channels[c].capacity && |channels[c].buffer| <= channels[c].capacity)
  }

  lemma OfferKeepsOpen<T(!new)>(subs: set<ChannelId>, channels: map<ChannelId, Channel<T>>, c: ChannelId, e: T)
    requires Open(subs, channels) && c in subs
    ensures c in channels && Open(subs, channels[c := Offer(channels[c], e)])
    ensures |channels[c].buffer| >= channels[c].capacity ==> channels[c := Offer(channels[c], e)] == channels
  {
  }

  /** An offer fills a free slot of each subscribed channel with the event, and is all that
      changes. */
  lemma OfferedMeans<T(!new)>(before: map<ChannelId, Channel<T>>, after: map<ChannelId, Channel<T>>, subs: set<ChannelId>, e: T)
    ensures OfferedToAll(before, after, subs, e) <==>
            && after.Keys == before.Keys
            && forall c :: c in before ==>
                 var was := before[c];
                 && after[c].capacity == was.capacity && after[c].closed == was.closed
                 && after[c].buffer == (if c in subs && |was.buffer| < was.capacity then was.buffer + [e] else was.buffer)
  {
  }

  lemma OfferOne<T(!new)>(before: map<ChannelId, Channel<T>>, after: map<ChannelId, Channel<T>>, subs: set<ChannelId>, c: ChannelId, e: T)
    requires OfferedToAll(before, after, subs, e) && c in after && c !in subs
    ensures OfferedToAll(before, after[c := Offer(after[c], e)], subs + {c}, e)
  {
  }

  // ---------- event ids ----------

  function EventId(n: nat): string {
    "evt-" + Decimal(n)
  }

  /** The id of the n-th event is "evt-" and the numeral of n. */
  lemma EventIdMeans(n: nat)
    ensures var id := EventId(n);
            && |id| > 4 && id[..4] == "evt-" && AllDigits(id[4..]) && DigitsValue(id[4..]) == n
            && (n > 0 ==> id[4] != '0')
  {
    DecimalMeans(n);
    assert EventId(n)[4..] == Decimal(n);
  }

  /** Different numbers give different event ids. */
  lemma EventIdIsInjective(m: nat, n: nat)
    requires EventId(m) == EventId(n)
    ensures m == n
  {
    assert EventId(m)[4..] == Decimal(m) && EventId(n)[4..] == Decimal(n);
    DecimalMeans(m);
    DecimalMeans(n);
  }

  // ---------- the bus ----------

  class Bus {
    var published: nat
    var subs: set<ChannelId>
    var channels: map<ChannelId, Channel<Event>>

    ghost predicate Valid()
      reads this
    {
      Open(subs, channels)
    }

    constructor ()
      ensures Valid() && published == 0 && subs == {} && channels == map[]
    {
      published, subs, channels := 0, {}, map[];
    }

    /** Subscribe: a new open channel of at least one slot. */
    method Subscribe(buffer: int, fresh_id: ChannelId)
      requires Valid() && fresh_id !in channels
      modifies this`subs, this`channels
      ensures Valid()
      ensures subs == old(subs) + {fresh_id}
      ensures channels == old(channels)[fresh_id := Channel(if buffer < 1 then 1 else buffer, [], false)]
    {
      var capacity := if buffer < 1 then 1 else buffer;
      channels := channels[fresh_id := Channel(capacity, [], false)];
      subs := subs + {fresh_id};
    }

    /** The cancel function of a subscription; calling it again does nothing. */
    method Cancel(c: ChannelId)
      requires Valid() && c in channels
      modifies this`subs, this`channels
      ensures Valid()
      ensures subs == old(subs) - {c}
      ensures channels == if c in old(subs) then old(channels)[c := old(channels)[c].(closed := true)] else old(channels)
    {
      if c in subs {
        subs := subs - {c};
        assert !channels[c].closed;
        channels := channels[c := channels[c].(closed := true)];
      }
    }

    /** publish, when nothing runs beside it: every subscribed channel is offered the event
        once, in whatever order the map gives them; nobody else notices. */
    method Publish(kind: string, source: string, subject: string, data: map<string, string>, now: Time)
      requires Valid()
      modifies this`published, this`channels
      ensures Valid()
      ensures published == old(published) + 1
      ensures OfferedToAll(old(channels), channels, subs, Event(EventId(published), kind, source, subject, data, now.Utc()))
      ensures channels.Keys == old(channels).Keys
      ensures var e := Event("evt-" + Decimal(published), kind, source, subject, data, Time(now.instant, 0));
              forall c :: c in channels ==>
                var was := old(channels)[c];
                && channels[c].capacity == was.capacity && channels[c].closed == was.closed
                && channels[c].buffer == (if c in subs && |was.buffer| < was.capacity then was.buffer + [e] else was.buffer)
    {
      published := published + 1;
      var e := Event(EventId(published), kind, source, subject, data, now.Utc());
      var left := subs;
      while left != {}
        invariant left <= subs
        invariant Valid()
        invariant published == old(published) + 1
        invariant OfferedToAll(old(channels), channels, subs - left, e)
        decreases left
      {
        hide OfferedToAll, Open;
        var c :| c in left;
        OfferKeepsOpen(subs, channels, c, e);
        OfferOne(old(channels), channels, subs - left, c, e);
        assert subs - (left - {c}) == (subs - left) + {c};
        left := left - {c};
        if |channels[c].buffer| < channels[c].capacity {
          channels := channels[c := channels[c].(buffer := channels[c].buffer + [e])];
        }
      }
      OfferedMeans(old(channels), channels, subs, e);
      hide OfferedToAll, Open;
    }
  }
}
