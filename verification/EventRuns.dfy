/** Runs of the event bus with any number of publishers, subscribers, receivers and
    cancels interleaved. Taking the event number, entering the read lock, each send and
    leaving the lock are separate steps; Subscribe and cancel need the write lock. */
module EventRuns {
  import opened EventBus

  type Publisher = int

  datatype Phase = Numbered(number: int) | Sending(number: int, left: set<ChannelId>)

  /** What became of one event on one channel. */
  datatype Outcome = Delivered | Dropped(unread: int)

  /** One event meeting one channel. */
  datatype Meeting = Meeting(number: int, channel: ChannelId)

  type Outcomes = map<Meeting, Outcome>

  predicate Met(outcomes: Outcomes, n: int, c: ChannelId) {
    Meeting(n, c) in outcomes
  }

  predicate WasDelivered(outcomes: Outcomes, n: int, c: ChannelId) {
    Meeting(n, c) in outcomes && outcomes[Meeting(n, c)] == Delivered
  }

  predicate WasDropped(outcomes: Outcomes, n: int, c: ChannelId, unread: int) {
    Meeting(n, c) in outcomes && outcomes[Meeting(n, c)] == Dropped(unread)
  }

  /** Writing down one outcome changes nothing about any other meeting. */
  lemma NoteOne(outcomes: Outcomes, n: int, c: ChannelId, what: Outcome, k: int, d: ChannelId)
    ensures Met(outcomes[Meeting(n, c) := what], k, d) <==> Met(outcomes, k, d) || (k == n && d == c)
    ensures k == n && d == c ==> WasDelivered(outcomes[Meeting(n, c) := what], k, d) == what.Delivered?
    ensures k != n || d != c ==> WasDelivered(outcomes[Meeting(n, c) := what], k, d) == WasDelivered(outcomes, k, d)
  {
  }

  lemma NoteDrop(outcomes: Outcomes, n: int, c: ChannelId, what: Outcome, k: int, d: ChannelId, u: int)
    ensures k == n && d == c ==> WasDropped(outcomes[Meeting(n, c) := what], k, d, u) == (what == Dropped(u))
    ensures k != n || d != c ==> WasDropped(outcomes[Meeting(n, c) := what], k, d, u) == WasDropped(outcomes, k, d, u)
  {
  }

  lemma NoteOutcome(outcomes: Outcomes, n: int, c: ChannelId, what: Outcome, after: Outcomes)
    requires after == outcomes[Meeting(n, c) := what]
    ensures forall k, d :: Met(after, k, d) <==> Met(outcomes, k, d) || (k == n && d == c)
    ensures forall k, d :: WasDelivered(after, k, d) <==> if k == n && d == c then what.Delivered? else WasDelivered(outcomes, k, d)
    ensures forall k, d, u :: WasDropped(after, k, d, u) <==> if k == n && d == c then what == Dropped(u) else WasDropped(outcomes, k, d, u)
  {
    hide Met, WasDelivered, WasDropped;
    forall k, d ensures Met(after, k, d) <==> Met(outcomes, k, d) || (k == n && d == c) { NoteOne(outcomes, n, c, what, k, d); }
    forall k, d ensures WasDelivered(after, k, d) <==> if k == n && d == c then what.Delivered? else WasDelivered(outcomes, k, d) {
      NoteOne(outcomes, n, c, what, k, d);
    }
    forall k, d, u ensures WasDropped(after, k, d, u) <==> if k == n && d == c then what == Dropped(u) else WasDropped(outcomes, k, d, u) {
      NoteDrop(outcomes, n, c, what, k, d, u);
    }
  }

  /** The run's state. sent is everything a channel ever accepted; audience is the set of
      channels that were subscribed when a publish entered the lock. */
  datatype Sys = Sys(
    counter: int,
    subs: set<ChannelId>,
    channels: map<ChannelId, Channel<int>>,
    sent: map<ChannelId, seq<int>>,
    taken: map<ChannelId, seq<int>>,
    publishers: map<Publisher, Phase>,
    audience: map<int, set<ChannelId>>,
    outcomes: Outcomes,
    done: set<int>,
    panicked: bool)

  datatype Step =
    | Subscribe(c: ChannelId, buffer: int)
    | Cancel(c: ChannelId)
    | Number(p: Publisher)
    | Lock(p: Publisher)
    | Send(p: Publisher, c: ChannelId)
    | Unlock(p: Publisher)
    | Receive(c: ChannelId)

  const START := Sys(0, {}, map[], map[], map[], map[], map[], map[], {}, false)

  predicate Unlocked(s: Sys) {
    forall p :: p in s.publishers ==> s.publishers[p].Numbered?
  }

  predicate Enabled(s: Sys, step: Step) {
    match step
    case Subscribe(c, _) => Unlocked(s) && c !in s.channels
    case Cancel(c) => Unlocked(s) && c in s.channels
    case Number(p) => p !in s.publishers
    case Lock(p) => p in s.publishers && s.publishers[p].Numbered?
    case Send(p, c) => p in s.publishers && s.publishers[p].Sending? && c in s.publishers[p].left && c in s.channels && c in s.sent
    case Unlock(p) => p in s.publishers && s.publishers[p].Sending? && s.publishers[p].left == {}
    case Receive(c) => c in s.channels && c in s.taken && s.channels[c].buffer != []
  }

  function Next(s: Sys, step: Step): Sys
    requires Enabled(s, step)
  {
    match step
    case Subscribe(c, buffer) =>
      s.(channels := s.channels[c := Channel(if buffer < 1 then 1 else buffer, [], false)],
      sent := s.sent[c := []], taken := s.taken[c := []], subs := s.subs + {c})
    case Cancel(c) =>
      if c !in s.subs then s
      else if s.channels[c].closed then s.(panicked := true)
      else s.(subs := s.subs - {c}, channels := s.channels[c := s.channels[c].(closed := true)])
    case Number(p) => s.(counter := s.counter + 1, publishers := s.publishers[p := Numbered(s.counter + 1)])
    case Lock(p) =>
      s.(publishers := s.publishers[p := Sending(s.publishers[p].number, s.subs)],
      audience := s.audience[s.publishers[p].number := s.subs])
    case Send(p, c) => AfterSend(s, p, c)
    case Unlock(p) => s.(publishers := s.publishers - {p}, done := s.done + {s.publishers[p].number})
    case Receive(c) =>
      s.(channels := s.channels[c := s.channels[c].(buffer := s.channels[c].buffer[1..])],
      taken := s.taken[c := s.taken[c] + [s.channels[c].buffer[0]]])
  }

  /** The non-blocking send; on a closed channel Go panics even in a select. */
  function AfterSend(s: Sys, p: Publisher, c: ChannelId): Sys
    requires Enabled(s, Send(p, c))
  {
    var n, ch := s.publishers[p].number, s.channels[c];
    var s' := s.(publishers := s.publishers[p := Sending(n, s.publishers[p].left - {c})]);
    if ch.closed then s'.(panicked := true)
    else if |ch.buffer| < ch.capacity then
      s'.(channels := s.channels[c := Offer(ch, n)], sent := s.sent[c := s.sent[c] + [n]],
      outcomes := s.outcomes[Meeting(n, c) := Delivered])
    else s'.(outcomes := s.outcomes[Meeting(n, c) := Dropped(|ch.buffer|)])
  }

  predicate IsRun(trace: seq<Sys>, steps: seq<Step>) {
    && |trace| == |steps| + 1
    && trace[0] == START
    && forall i :: 0 <= i < |steps| ==> Enabled(trace[i], steps[i]) && trace[i + 1] == Next(trace[i], steps[i])
  }

  // ---------- the invariant ----------

  ghost predicate ChannelsHold(subs: set<ChannelId>, channels: map<ChannelId, Channel<int>>,
                               sent: map<ChannelId, seq<int>>, taken: map<ChannelId, seq<int>>) {
    && subs <= channels.Keys == sent.Keys == taken.Keys
    && (forall c :: c in subs ==> !channels[c].closed)
    && (forall c :: c in channels ==>
          && 1 <= channels[c].capacity && |channels[c].buffer| <= channels[c].capacity
          && sent[c] == taken[c] + channels[c].buffer)
  }

  /** Numbers are never shared. */
  ghost predicate NumbersHold(publishers: map<Publisher, Phase>, done: set<int>, counter: int) {
    && 0 <= counter
    && (forall p :: p in publishers ==> 1 <= publishers[p].number <= counter && publishers[p].number !in done)
    && (forall p, q :: p in publishers && q in publishers && p != q ==> publishers[p].number != publishers[q].number)
    && (forall n :: n in done ==> 1 <= n <= counter)
  }

  /** A publish has no outcome yet where it has still to offer. */
  ghost predicate OffersHold(outcomes: Outcomes, publishers: map<Publisher, Phase>,
                             counter: int, subs: set<ChannelId>) {
    && (forall n, c :: Met(outcomes, n, c) ==> n <= counter)
    && (forall p :: p in publishers ==> Unsettled(outcomes, publishers[p], subs))
  }

  ghost predicate Unsettled(outcomes: Outcomes, phase: Phase, subs: set<ChannelId>) {
    match phase
    case Numbered(n) => forall c :: !Met(outcomes, n, c)
    case Sending(n, left) => left <= subs && forall c :: c in left ==> !Met(outcomes, n, c)
  }

  /** A channel accepted an event exactly when the outcome says so, and at most once; an
      event was dropped only with as many unread as the channel has slots. */
  ghost predicate DeliveriesHold(outcomes: Outcomes, sent: map<ChannelId, seq<int>>, capacity: map<ChannelId, int>) {
    && capacity.Keys == sent.Keys
    && (forall c, i :: c in sent && 0 <= i < |sent[c]| ==> Met(outcomes, sent[c][i], c) && WasDelivered(outcomes, sent[c][i], c))
    && (forall n, c :: WasDelivered(outcomes, n, c) ==> c in sent && n in sent[c])
    && (forall c, i, j :: c in sent && 0 <= i < j < |sent[c]| ==> sent[c][i] != sent[c][j])
    && (forall n, c, u :: WasDropped(outcomes, n, c, u) ==> c in capacity && u == capacity[c])
  }

  /** A publish has met everyone in its audience but those it has still to offer to. */
  ghost predicate AudienceHolds(publishers: map<Publisher, Phase>, audience: map<int, set<ChannelId>>,
                                outcomes: Outcomes, done: set<int>) {
    && (forall p :: p in publishers && publishers[p].Sending? ==>
          && publishers[p].number in audience
          && forall c :: c in audience[publishers[p].number] && c !in publishers[p].left ==> Met(outcomes, publishers[p].number, c))
    && (forall n :: n in done ==> n in audience && forall c :: c in audience[n] ==> Met(outcomes, n, c))
  }

  function Capacities(channels: map<ChannelId, Channel<int>>): map<ChannelId, int> {
    map c | c in channels :: channels[c].capacity
  }

  ghost predicate Inv(s: Sys) {
    && !s.panicked
    && ChannelsHold(s.subs, s.channels, s.sent, s.taken)
    && NumbersHold(s.publishers, s.done, s.counter)
    && OffersHold(s.outcomes, s.publishers, s.counter, s.subs)
    && DeliveriesHold(s.outcomes, s.sent, Capacities(s.channels))
    && AudienceHolds(s.publishers, s.audience, s.outcomes, s.done)
  }

  // ---------- every step keeps it ----------

  lemma SameCapacities(channels: map<ChannelId, Channel<int>>, c: ChannelId, ch: Channel<int>)
    requires c in channels && ch.capacity == channels[c].capacity
    ensures Capacities(channels[c := ch]) == Capacities(channels)
  {
  }

  lemma NewCapacity(channels: map<ChannelId, Channel<int>>, c: ChannelId, ch: Channel<int>)
    ensures Capacities(channels[c := ch]) == Capacities(channels)[c := ch.capacity]
  {
  }

  lemma NewChannel(s: Sys, c: ChannelId, buffer: int)
    requires ChannelsHold(s.subs, s.channels, s.sent, s.taken) && c !in s.channels
    ensures ChannelsHold(s.subs + {c}, s.channels[c := Channel(if buffer < 1 then 1 else buffer, [], false)], s.sent[c := []], s.taken[c := []])
  {
  }

  lemma SubscribeKeepsInv(s: Sys, c: ChannelId, buffer: int)
    requires Inv(s) && Enabled(s, Subscribe(c, buffer))
    ensures Inv(Next(s, Subscribe(c, buffer)))
  {
    hide NumbersHold, AudienceHolds, Capacities, OffersHold, DeliveriesHold;
    assert c !in s.sent;
    MoreSubscribers(s, c);
    NewChannel(s, c, buffer);
    hide ChannelsHold;
    var ch := Channel(if buffer < 1 then 1 else buffer, [], false);
    NewCapacity(s.channels, c, ch);
    NewChannelDeliveries(s, c, ch.capacity);
  }

  lemma NewChannelDeliveries(s: Sys, c: ChannelId, capacity: int)
    requires DeliveriesHold(s.outcomes, s.sent, Capacities(s.channels)) && c !in s.sent
    ensures DeliveriesHold(s.outcomes, s.sent[c := []], Capacities(s.channels)[c := capacity])
  {
    hide Capacities, Met, WasDelivered, WasDropped;
  }

  lemma MoreSubscribers(s: Sys, c: ChannelId)
    ensures OffersHold(s.outcomes, s.publishers, s.counter, s.subs) ==> OffersHold(s.outcomes, s.publishers, s.counter, s.subs + {c})
  {
  }

  lemma NoCapacity(channels: map<ChannelId, Channel<int>>, c: ChannelId)
    ensures c in Capacities(channels) <==> c in channels
    ensures c in channels ==> Capacities(channels)[c] == channels[c].capacity
  {
  }

  lemma CancelKeepsInv(s: Sys, c: ChannelId)
    requires Inv(s) && Enabled(s, Cancel(c))
    ensures Inv(Next(s, Cancel(c)))
  {
    hide NumbersHold, AudienceHolds, DeliveriesHold, Capacities;
    SameCapacities(s.channels, c, s.channels[c].(closed := true));
  }

  lemma DrainKeepsChannels(subs: set<ChannelId>, channels: map<ChannelId, Channel<int>>,
                           sent: map<ChannelId, seq<int>>, taken: map<ChannelId, seq<int>>, c: ChannelId)
    requires ChannelsHold(subs, channels, sent, taken) && c in channels && channels[c].buffer != []
    ensures ChannelsHold(subs, channels[c := channels[c].(buffer := channels[c].buffer[1..])],
                         sent, taken[c := taken[c] + [channels[c].buffer[0]]])
  {
    var ch := channels[c];
    assert taken[c] + ch.buffer == (taken[c] + [ch.buffer[0]]) + ch.buffer[1..];
  }

  lemma ReceiveKeepsInv(s: Sys, c: ChannelId)
    requires Inv(s) && Enabled(s, Receive(c))
    ensures Inv(Next(s, Receive(c)))
  {
    hide NumbersHold, AudienceHolds, DeliveriesHold, OffersHold, Capacities;
    SameCapacities(s.channels, c, s.channels[c].(buffer := s.channels[c].buffer[1..]));
    DrainKeepsChannels(s.subs, s.channels, s.sent, s.taken, c);
    hide ChannelsHold;
  }

  // a publish that has only its number

  lemma NumberKeepsOffers(outcomes: Outcomes, publishers: map<Publisher, Phase>, counter: int, subs: set<ChannelId>, p: Publisher)
    requires OffersHold(outcomes, publishers, counter, subs)
    ensures OffersHold(outcomes, publishers[p := Numbered(counter + 1)], counter + 1, subs)
  {
    hide Met;
  }

  lemma NumberKeepsInv(s: Sys, p: Publisher)
    requires Inv(s) && Enabled(s, Number(p))
    ensures Inv(Next(s, Number(p)))
  {
    hide ChannelsHold, DeliveriesHold, Capacities, OffersHold, Met;
    NumberKeepsOffers(s.outcomes, s.publishers, s.counter, s.subs, p);
  }

  // a publish entering the lock

  lemma LockKeepsOffers(outcomes: Outcomes, publishers: map<Publisher, Phase>, counter: int, subs: set<ChannelId>, p: Publisher)
    requires OffersHold(outcomes, publishers, counter, subs) && p in publishers && publishers[p].Numbered?
    ensures OffersHold(outcomes, publishers[p := Sending(publishers[p].number, subs)], counter, subs)
  {
    hide Met;
  }

  lemma LockKeepsAudience(publishers: map<Publisher, Phase>, audience: map<int, set<ChannelId>>, outcomes: Outcomes,
                          done: set<int>, counter: int, subs: set<ChannelId>, p: Publisher)
    requires NumbersHold(publishers, done, counter) && AudienceHolds(publishers, audience, outcomes, done) && p in publishers
    ensures AudienceHolds(publishers[p := Sending(publishers[p].number, subs)], audience[publishers[p].number := subs], outcomes, done)
  {
    hide Met;
  }

  lemma RenameKeepsNumbers(publishers: map<Publisher, Phase>, done: set<int>, counter: int, p: Publisher, left: set<ChannelId>)
    requires NumbersHold(publishers, done, counter) && p in publishers
    ensures NumbersHold(publishers[p := Sending(publishers[p].number, left)], done, counter)
  {
  }

  lemma LockKeepsInv(s: Sys, p: Publisher)
    requires Inv(s) && Enabled(s, Lock(p))
    ensures Inv(Next(s, Lock(p)))
  {
    hide ChannelsHold, DeliveriesHold, Capacities, OffersHold, AudienceHolds, NumbersHold;
    LockKeepsOffers(s.outcomes, s.publishers, s.counter, s.subs, p);
    LockKeepsAudience(s.publishers, s.audience, s.outcomes, s.done, s.counter, s.subs, p);
    RenameKeepsNumbers(s.publishers, s.done, s.counter, p, s.subs);
  }

  // a publish leaving the lock

  lemma UnlockKeepsOffers(outcomes: Outcomes, publishers: map<Publisher, Phase>, counter: int, subs: set<ChannelId>, p: Publisher)
    requires OffersHold(outcomes, publishers, counter, subs)
    ensures OffersHold(outcomes, publishers - {p}, counter, subs)
  {
    hide Met;
  }

  lemma UnlockKeepsAudience(publishers: map<Publisher, Phase>, audience: map<int, set<ChannelId>>, outcomes: Outcomes,
                            done: set<int>, p: Publisher)
    requires AudienceHolds(publishers, audience, outcomes, done) && p in publishers
    requires publishers[p].Sending? && publishers[p].left == {}
    ensures AudienceHolds(publishers - {p}, audience, outcomes, done + {publishers[p].number})
  {
    hide Met;
  }

  lemma UnlockKeepsNumbers(publishers: map<Publisher, Phase>, done: set<int>, counter: int, p: Publisher)
    requires NumbersHold(publishers, done, counter) && p in publishers
    ensures NumbersHold(publishers - {p}, done + {publishers[p].number}, counter)
  {
  }

  lemma UnlockKeepsInv(s: Sys, p: Publisher)
    requires Inv(s) && Enabled(s, Unlock(p))
    ensures Inv(Next(s, Unlock(p)))
  {
    hide ChannelsHold, DeliveriesHold, Capacities, OffersHold, AudienceHolds, NumbersHold;
    UnlockKeepsOffers(s.outcomes, s.publishers, s.counter, s.subs, p);
    UnlockKeepsAudience(s.publishers, s.audience, s.outcomes, s.done, p);
    UnlockKeepsNumbers(s.publishers, s.done, s.counter, p);
  }

  // one offer

  lemma DeliverKeepsChannels(subs: set<ChannelId>, channels: map<ChannelId, Channel<int>>,
                             sent: map<ChannelId, seq<int>>, taken: map<ChannelId, seq<int>>, c: ChannelId, n: int)
    requires ChannelsHold(subs, channels, sent, taken) && c in channels && |channels[c].buffer| < channels[c].capacity
    ensures ChannelsHold(subs, channels[c := Offer(channels[c], n)], sent[c := sent[c] + [n]], taken)
  {
    assert sent[c] + [n] == taken[c] + (channels[c].buffer + [n]);
  }

  lemma OfferKeepsChannels(s: Sys, p: Publisher, c: ChannelId)
    requires Inv(s) && Enabled(s, Send(p, c))
    ensures !AfterSend(s, p, c).panicked
    ensures ChannelsHold(s.subs, AfterSend(s, p, c).channels, AfterSend(s, p, c).sent, s.taken)
    ensures Capacities(AfterSend(s, p, c).channels) == Capacities(s.channels)
  {
    SubscribedIsOpen(s, p, c);
    hide NumbersHold, DeliveriesHold, AudienceHolds, OffersHold, ChannelsHold, Capacities;
    if |s.channels[c].buffer| < s.channels[c].capacity {
      DeliverKeepsChannels(s.subs, s.channels, s.sent, s.taken, c, s.publishers[p].number);
      SameCapacities(s.channels, c, Offer(s.channels[c], s.publishers[p].number));
    }
  }

  lemma SubscribedIsOpen(s: Sys, p: Publisher, c: ChannelId)
    requires Inv(s) && Enabled(s, Send(p, c))
    ensures c in s.subs && !s.channels[c].closed
  {
    hide NumbersHold, DeliveriesHold, AudienceHolds, Met, Capacities;
  }

  /** after knows one more meeting than before. */
  ghost predicate OneMore(before: Outcomes, after: Outcomes, n: int, c: ChannelId) {
    forall k, d :: Met(after, k, d) <==> Met(before, k, d) || (k == n && d == c)
  }

  lemma OfferKeepsAudience(publishers: map<Publisher, Phase>, audience: map<int, set<ChannelId>>, outcomes: Outcomes, after: Outcomes,
                           done: set<int>, p: Publisher, c: ChannelId)
    requires AudienceHolds(publishers, audience, outcomes, done) && p in publishers && publishers[p].Sending?
    requires OneMore(outcomes, after, publishers[p].number, c)
    ensures AudienceHolds(publishers[p := Sending(publishers[p].number, publishers[p].left - {c})], audience, after, done)
  {
    hide Met;
  }

  /** Offering to c settles nothing for another publish, nor on another channel. */
  lemma OthersStayUnsettled(outcomes: Outcomes, after: Outcomes, n: int, c: ChannelId, phase: Phase, subs: set<ChannelId>)
    requires OneMore(outcomes, after, n, c) && Unsettled(outcomes, phase, subs)
    ensures phase.number != n ==> Unsettled(after, phase, subs)
    ensures phase.Sending? ==> Unsettled(after, Sending(phase.number, phase.left - {c}), subs)
  {
    hide Met;
  }

  lemma OfferKeepsOffers(outcomes: Outcomes, after: Outcomes, publishers: map<Publisher, Phase>, done: set<int>, counter: int,
                         subs: set<ChannelId>, p: Publisher, c: ChannelId)
    requires OffersHold(outcomes, publishers, counter, subs) && NumbersHold(publishers, done, counter)
    requires p in publishers && publishers[p].Sending?
    requires OneMore(outcomes, after, publishers[p].number, c)
    ensures OffersHold(after, publishers[p := Sending(publishers[p].number, publishers[p].left - {c})], counter, subs)
  {
    hide Met, Unsettled;
    var n := publishers[p].number;
    forall q | q in publishers
      ensures q != p ==> Unsettled(after, publishers[q], subs)
      ensures q == p ==> Unsettled(after, Sending(n, publishers[p].left - {c}), subs)
    {
      OthersStayUnsettled(outcomes, after, n, c, publishers[q], subs);
    }
  }

  lemma OutcomeOfSend(s: Sys, p: Publisher, c: ChannelId)
    requires Enabled(s, Send(p, c)) && !s.channels[c].closed
    ensures var n, ch, after := s.publishers[p].number, s.channels[c], AfterSend(s, p, c).outcomes;
            var delivered := |ch.buffer| < ch.capacity;
            && (forall k, d :: Met(after, k, d) <==> Met(s.outcomes, k, d) || (k == n && d == c))
            && (forall k, d :: WasDelivered(after, k, d) <==> if k == n && d == c then delivered else WasDelivered(s.outcomes, k, d))
            && (forall k, d, u :: WasDropped(after, k, d, u) <==>
                                  if k == n && d == c then !delivered && u == |ch.buffer| else WasDropped(s.outcomes, k, d, u))
  {
    hide Met, WasDelivered, WasDropped;
    var n, ch := s.publishers[p].number, s.channels[c];
    NoteOutcome(s.outcomes, n, c, if |ch.buffer| < ch.capacity then Delivered else Dropped(|ch.buffer|), AfterSend(s, p, c).outcomes);
  }

  lemma DeliveredOnce(outcomes: Outcomes, after: Outcomes, sent: map<ChannelId, seq<int>>, capacity: map<ChannelId, int>, n: int, c: ChannelId)
    requires DeliveriesHold(outcomes, sent, capacity) && c in sent && !Met(outcomes, n, c)
    requires after == outcomes[Meeting(n, c) := Delivered]
    ensures DeliveriesHold(after, sent[c := sent[c] + [n]], capacity)
  {
    NoteOutcome(outcomes, n, c, Delivered, after);
    hide Met, WasDelivered, WasDropped;
    assert n !in sent[c];
  }

  lemma DroppedOnce(outcomes: Outcomes, after: Outcomes, sent: map<ChannelId, seq<int>>, capacity: map<ChannelId, int>, n: int, c: ChannelId, unread: int)
    requires DeliveriesHold(outcomes, sent, capacity) && c in capacity && unread == capacity[c] && !Met(outcomes, n, c)
    requires after == outcomes[Meeting(n, c) := Dropped(unread)]
    ensures DeliveriesHold(after, sent, capacity)
  {
    NoteOutcome(outcomes, n, c, Dropped(unread), after);
    DeliveredIsMet(outcomes, n, c);
    hide Met, WasDelivered, WasDropped;
  }

  lemma DeliveredIsMet(outcomes: Outcomes, n: int, c: ChannelId)
    ensures WasDelivered(outcomes, n, c) ==> Met(outcomes, n, c)
  {
  }

  lemma OfferKeepsDeliveries(s: Sys, p: Publisher, c: ChannelId)
    requires Inv(s) && Enabled(s, Send(p, c)) && c in s.subs
    ensures DeliveriesHold(AfterSend(s, p, c).outcomes, AfterSend(s, p, c).sent, Capacities(s.channels))
  {
    hide NumbersHold, AudienceHolds, Capacities, Met, WasDelivered, WasDropped, DeliveriesHold;
    NoCapacity(s.channels, c);
    var n, ch := s.publishers[p].number, s.channels[c];
    assert Unsettled(s.outcomes, s.publishers[p], s.subs) && !Met(s.outcomes, n, c);
    if |ch.buffer| < ch.capacity {
      DeliveredOnce(s.outcomes, AfterSend(s, p, c).outcomes, s.sent, Capacities(s.channels), n, c);
    } else {
      DroppedOnce(s.outcomes, AfterSend(s, p, c).outcomes, s.sent, Capacities(s.channels), n, c, |ch.buffer|);
    }
  }

  lemma SendKeepsInv(s: Sys, p: Publisher, c: ChannelId)
    requires Inv(s) && Enabled(s, Send(p, c))
    ensures Inv(Next(s, Send(p, c)))
  {
    hide DeliveriesHold, Capacities, NumbersHold, AudienceHolds, Met, WasDelivered, WasDropped;
    OfferKeepsChannels(s, p, c);
    assert c in s.subs;
    OfferKeepsDeliveries(s, p, c);
    OutcomeOfSend(s, p, c);
    var n, after := s.publishers[p].number, AfterSend(s, p, c).outcomes;
    assert OneMore(s.outcomes, after, n, c);
    OfferKeepsAudience(s.publishers, s.audience, s.outcomes, after, s.done, p, c);
    OfferKeepsOffers(s.outcomes, after, s.publishers, s.done, s.counter, s.subs, p, c);
    RenameKeepsNumbers(s.publishers, s.done, s.counter, p, s.publishers[p].left - {c});
    hide ChannelsHold, OffersHold;
  }

  lemma StepKeepsInv(s: Sys, step: Step)
    requires Inv(s) && Enabled(s, step)
    ensures Inv(Next(s, step))
  {
    hide Inv, Enabled;
    match step
    case Subscribe(c, buffer) => SubscribeKeepsInv(s, c, buffer);
    case Cancel(c) => CancelKeepsInv(s, c);
    case Number(p) => NumberKeepsInv(s, p);
    case Lock(p) => LockKeepsInv(s, p);
    case Send(p, c) => SendKeepsInv(s, p, c);
    case Unlock(p) => UnlockKeepsInv(s, p);
    case Receive(c) => ReceiveKeepsInv(s, c);
  }

  lemma {:induction false} RunKeepsInv(trace: seq<Sys>, steps: seq<Step>, i: nat)
    requires IsRun(trace, steps) && i < |trace|
    ensures Inv(trace[i])
  {
    if i == 0 {
      StartHolds();
    } else {
      RunKeepsInv(trace, steps, i - 1);
      StepKeepsInv(trace[i - 1], steps[i - 1]);
    }
  }

  lemma StartHolds()
    ensures Inv(START)
  {
    assert Capacities(START.channels).Keys == {};
  }

  // ---------- what runs promise ----------

  /** In every interleaving: nothing panics, so no send and no close ever hits a closed
      channel; subscribed channels are open; no channel exceeds its capacity; what was taken
      and what is waiting is, in order, what was accepted; and no event is accepted twice
      by one channel. */
  lemma ChannelsAreSafe(trace: seq<Sys>, steps: seq<Step>, i: nat)
    requires IsRun(trace, steps) && i < |trace|
    ensures !trace[i].panicked
    ensures forall c :: c in trace[i].subs ==> c in trace[i].channels && !trace[i].channels[c].closed
    ensures forall c :: c in trace[i].channels ==>
              && |trace[i].channels[c].buffer| <= trace[i].channels[c].capacity
              && c in trace[i].sent && c in trace[i].taken
              && trace[i].sent[c] == trace[i].taken[c] + trace[i].channels[c].buffer
              && forall j, k :: 0 <= j < k < |trace[i].sent[c]| ==> trace[i].sent[c][j] != trace[i].sent[c][k]
  {
    RunKeepsInv(trace, steps, i);
    hide NumbersHold, OffersHold, AudienceHolds, Met, WasDelivered, WasDropped, Capacities, IsRun;
  }

  /** Every finished publish was, for each channel that was subscribed when it entered the
      lock, either accepted by it or dropped while it was full; and it is in no channel
      that did not accept it. */
  lemma EveryPublishIsSettled(trace: seq<Sys>, steps: seq<Step>, i: nat, n: int, c: ChannelId)
    requires IsRun(trace, steps) && i < |trace|
    requires n in trace[i].done
    ensures n in trace[i].audience
    ensures c in trace[i].audience[n] ==>
              && c in trace[i].channels && c in trace[i].sent
              && (WasDelivered(trace[i].outcomes, n, c) || WasDropped(trace[i].outcomes, n, c, trace[i].channels[c].capacity))
    ensures c in trace[i].sent ==> (n in trace[i].sent[c] <==> WasDelivered(trace[i].outcomes, n, c))
  {
    RunKeepsInv(trace, steps, i);
    hide IsRun, NumbersHold, OffersHold;
    var s := trace[i];
    if c in s.audience[n] {
      assert Met(s.outcomes, n, c);
      if !WasDelivered(s.outcomes, n, c) {
        var u := s.outcomes[Meeting(n, c)].unread;
        assert WasDropped(s.outcomes, n, c, u);
        NoCapacity(s.channels, c);
      }
    }
  }

  /** Numbers are taken in increasing order, whether or not the publishes overlap, so no two
      events of a run have the same id. */
  lemma NumbersIncrease(trace: seq<Sys>, steps: seq<Step>, i: nat, j: nat)
    requires IsRun(trace, steps) && i < j < |steps| && steps[i].Number? && steps[j].Number?
    ensures steps[i].p in trace[i + 1].publishers && steps[j].p in trace[j + 1].publishers
    ensures var n, m := trace[i + 1].publishers[steps[i].p].number, trace[j + 1].publishers[steps[j].p].number;
            1 <= n < m && EventId(n) != EventId(m)
  {
    NumberIsNext(trace, steps, i);
    NumberIsNext(trace, steps, j);
    RunGrows(trace, steps, i + 1, j);
    hide IsRun, EventId;
    var n, m := trace[i + 1].publishers[steps[i].p].number, trace[j + 1].publishers[steps[j].p].number;
    if EventId(n) == EventId(m) { EventIdIsInjective(n, m); }
  }

  lemma NumberIsNext(trace: seq<Sys>, steps: seq<Step>, i: nat)
    requires IsRun(trace, steps) && i < |steps| && steps[i].Number?
    ensures steps[i].p in trace[i + 1].publishers
    ensures 1 <= trace[i + 1].publishers[steps[i].p].number == trace[i + 1].counter == trace[i].counter + 1
  {
    RunKeepsInv(trace, steps, i);
    hide ChannelsHold, OffersHold, DeliveriesHold, AudienceHolds;
  }

  /** The two publishes do not overlap: n was done when m took its number. */
  lemma LaterNumbersAreLarger(trace: seq<Sys>, steps: seq<Step>, i: nat, n: int)
    requires IsRun(trace, steps) && i < |steps| && steps[i].Number?
    requires n in trace[i].done
    ensures trace[i + 1].publishers[steps[i].p].number > n
  {
    RunKeepsInv(trace, steps, i);
    hide ChannelsHold, OffersHold, DeliveriesHold, AudienceHolds;
  }

  /** What later states owe to earlier ones: channels keep what they accepted, in place;
      a finished publish is on no channel that had not accepted it by then. */
  ghost predicate Grown(a: Sys, b: Sys) {
    && a.counter <= b.counter && a.done <= b.done
    && a.sent.Keys <= b.sent.Keys
    && (forall c :: c in a.sent ==> a.sent[c] <= b.sent[c])
    && (forall c, n :: c in b.sent && n in b.sent[c] && n in a.done ==> c in a.sent && n in a.sent[c])
  }

  lemma StepGrows(a: Sys, step: Step)
    requires Inv(a) && Enabled(a, step)
    ensures Grown(a, Next(a, step))
  {
    hide Met, WasDelivered, WasDropped, Capacities, OffersHold, AudienceHolds;
    if step.Send? {
      hide Grown;
      SendGrows(a, step.p, step.c);
    } else {
      OtherStepsSendNothing(a, step);
    }
  }

  lemma OtherStepsSendNothing(a: Sys, step: Step)
    requires Inv(a) && Enabled(a, step) && !step.Send?
    ensures var b := Next(a, step);
            && a.counter <= b.counter && a.done <= b.done && a.sent.Keys <= b.sent.Keys
            && forall c :: c in b.sent ==> b.sent[c] == if c in a.sent then a.sent[c] else []
  {
    hide Met, WasDelivered, WasDropped, Capacities, OffersHold, AudienceHolds, NumbersHold, DeliveriesHold;
  }

  lemma SendGrows(a: Sys, p: Publisher, c: ChannelId)
    requires Inv(a) && Enabled(a, Send(p, c))
    ensures Grown(a, AfterSend(a, p, c))
  {
    hide Met, WasDelivered, WasDropped, Capacities, OffersHold, AudienceHolds, DeliveriesHold;
    assert a.publishers[p].number !in a.done;
  }

  lemma GrownChains(a: Sys, b: Sys, c: Sys)
    requires Grown(a, b) && Grown(b, c)
    ensures Grown(a, c)
  {
  }

  lemma {:induction false} RunGrows(trace: seq<Sys>, steps: seq<Step>, i: nat, j: nat)
    requires IsRun(trace, steps) && i <= j < |trace|
    ensures Grown(trace[i], trace[j])
  {
    hide Grown, Inv, Enabled, Next;
    if i == j {
      GrownItself(trace[i]);
    } else {
      RunGrows(trace, steps, i, j - 1);
      RunKeepsInv(trace, steps, j - 1);
      StepGrows(trace[j - 1], steps[j - 1]);
      GrownChains(trace[i], trace[j - 1], trace[j]);
    }
  }

  lemma GrownItself(a: Sys)
    ensures Grown(a, a)
  {
  }

  /** Order: a publish that was done before another took its number lies before it in every
      channel that accepted both. */
  lemma ChannelsKeepOrder(trace: seq<Sys>, steps: seq<Step>, i: nat, j: nat, n: int, m: int, c: ChannelId, a: nat, b: nat)
    requires IsRun(trace, steps) && i <= j < |trace|
    requires n in trace[i].done && m > trace[i].counter
    requires c in trace[j].sent && a < |trace[j].sent[c]| && b < |trace[j].sent[c]|
    requires trace[j].sent[c][a] == n && trace[j].sent[c][b] == m
    ensures a < b
  {
    RunGrows(trace, steps, i, j);
    RunKeepsInv(trace, steps, i);
    RunKeepsInv(trace, steps, j);
    AcceptedOnce(trace[j], c);
    NotYetAccepted(trace[i], m, c);
    hide Inv, IsRun;
    assert n in trace[j].sent[c];
    var k :| 0 <= k < |trace[i].sent[c]| && trace[i].sent[c][k] == n;
    assert trace[j].sent[c][k] == n;
    assert forall l :: 0 <= l < |trace[i].sent[c]| ==> trace[i].sent[c][l] == trace[j].sent[c][l];
  }

  lemma AcceptedOnce(s: Sys, c: ChannelId)
    requires Inv(s) && c in s.sent
    ensures forall i, j :: 0 <= i < j < |s.sent[c]| ==> s.sent[c][i] != s.sent[c][j]
  {
  }

  lemma NotYetAccepted(s: Sys, m: int, c: ChannelId)
    requires Inv(s) && m > s.counter
    ensures c in s.sent ==> m !in s.sent[c]
  {
    hide ChannelsHold, AudienceHolds, Met, WasDelivered;
    if c in s.sent {
      forall i | 0 <= i < |s.sent[c]| ensures s.sent[c][i] <= s.counter {
        assert Met(s.outcomes, s.sent[c][i], c);
      }
    }
  }

  // ---------- subscriptions ----------

  /** Subscribing and cancelling are those of the bus. */
  lemma SubscriptionsAreTheBus(s: Sys, c: ChannelId, buffer: int)
    requires Inv(s)
    ensures Enabled(s, Subscribe(c, buffer)) ==>
              var after := Next(s, Subscribe(c, buffer));
              && after.subs == s.subs + {c} && c !in s.channels
              && after.channels == s.channels[c := Channel(if buffer < 1 then 1 else buffer, [], false)]
    ensures Enabled(s, Cancel(c)) ==>
              var after := Next(s, Cancel(c));
              && after.subs == s.subs - {c} && c in s.channels
              && after.channels == if c in s.subs then s.channels[c := s.channels[c].(closed := true)] else s.channels
  {
    hide NumbersHold, AudienceHolds, OffersHold, DeliveriesHold;
  }

  /** The two things that panic: closing a subscribed channel again, and sending on a closed
      one. */
  lemma PanicsMean(s: Sys, step: Step)
    requires Enabled(s, step)
    ensures Next(s, step).panicked <==>
            || s.panicked
            || (step.Cancel? && step.c in s.subs && s.channels[step.c].closed)
            || (step.Send? && s.channels[step.c].closed)
  {
  }

  /** The channel is closed, and no publish that is under way has it on its list. */
  ghost predicate Silent(s: Sys, c: ChannelId) {
    && c in s.channels && c in s.sent && c !in s.subs && s.channels[c].closed
    && forall p :: p in s.publishers && s.publishers[p].Sending? ==> c !in s.publishers[p].left
  }

  lemma SendStaysSilent(s: Sys, p: Publisher, d: ChannelId, c: ChannelId)
    requires Silent(s, c) && Enabled(s, Send(p, d))
    ensures var after := AfterSend(s, p, d);
            Silent(after, c) && c in after.sent && c in s.sent && after.sent[c] == s.sent[c]
  {
    assert d != c;
    hide Offer;
  }

  lemma StaysSilent(s: Sys, step: Step, c: ChannelId)
    requires Silent(s, c) && Enabled(s, step)
    ensures Silent(Next(s, step), c) && c in Next(s, step).sent && c in s.sent && Next(s, step).sent[c] == s.sent[c]
  {
    hide AfterSend, Unlocked;
    if step.Send? { SendStaysSilent(s, step.p, step.c, c); }
  }

  lemma CancelSilences(s: Sys, c: ChannelId)
    requires Inv(s) && Enabled(s, Cancel(c)) && c in s.subs
    ensures Silent(Next(s, Cancel(c)), c) && Next(s, Cancel(c)).sent == s.sent
  {
    hide NumbersHold, AudienceHolds, OffersHold, DeliveriesHold;
  }

  /** Once its subscription is cancelled a channel stays closed and accepts nothing more,
      whatever was being published meanwhile. */
  lemma {:induction false} CancelledStaysSilent(trace: seq<Sys>, steps: seq<Step>, i: nat, j: nat, c: ChannelId)
    requires IsRun(trace, steps) && i < j <= |steps| && steps[i] == Cancel(c) && c in trace[i].subs
    ensures Silent(trace[j], c) && c in trace[j].sent && c in trace[i].sent && trace[j].sent[c] == trace[i].sent[c]
    ensures c in trace[j].channels && trace[j].channels[c].closed && c !in trace[j].subs
  {
    RunKeepsInv(trace, steps, i);
    assert Enabled(trace[j - 1], steps[j - 1]) && trace[j] == Next(trace[j - 1], steps[j - 1]);
    hide Inv, Next, Enabled, Silent;
    if i + 1 == j {
      CancelSilences(trace[i], c);
      SilentIsThere(trace[j], c);
    } else {
      CancelledStaysSilent(trace, steps, i, j - 1, c);
      SilentIsThere(trace[j - 1], c);
      StaysSilent(trace[j - 1], steps[j - 1], c);
      SilentIsThere(trace[j], c);
    }
  }

  lemma SilentIsThere(s: Sys, c: ChannelId)
    requires Silent(s, c)
    ensures c in s.channels && c in s.sent && c !in s.subs && s.channels[c].closed
  {
  }

  // ---------- one publish alone ----------

  /** From position i on, publisher p publishes without any step of anyone else between. */
  predicate PublishesAlone(steps: seq<Step>, i: nat, p: Publisher, order: seq<ChannelId>) {
    && i + |order| + 2 < |steps|
    && steps[i] == Number(p) && steps[i + 1] == Lock(p) && steps[i + 2 + |order|] == Unlock(p)
    && forall k :: 0 <= k < |order| ==> steps[i + 2 + k] == Send(p, order[k])
  }

  /** What its sends have done when left is still to be offered. */
  ghost predicate PartlySent(a: Sys, b: Sys, p: Publisher, left: set<ChannelId>) {
    && p !in a.publishers && b.publishers == a.publishers[p := Sending(a.counter + 1, left)]
    && b.counter == a.counter + 1 && b.subs == a.subs
    && OfferedToAll(a.channels, b.channels, a.subs - left, a.counter + 1)
  }

  lemma FirstOffer(a: Sys, p: Publisher)
    requires Enabled(a, Number(p))
    ensures Enabled(Next(a, Number(p)), Lock(p)) && PartlySent(a, Next(Next(a, Number(p)), Lock(p)), p, a.subs)
  {
  }

  lemma OneMoreOffer(a: Sys, b: Sys, p: Publisher, left: set<ChannelId>, c: ChannelId)
    requires PartlySent(a, b, p, left) && Inv(b) && Enabled(b, Send(p, c))
    ensures PartlySent(a, AfterSend(b, p, c), p, left - {c})
  {
    hide Inv, AfterSend, OfferedToAll, Offer;
    SubscribedIsOpen(b, p, c);
    SendOffers(b, p, c);
    OfferOne(a.channels, b.channels, a.subs - left, c, a.counter + 1);
    assert a.subs - (left - {c}) == (a.subs - left) + {c};
  }

  lemma SendOffers(s: Sys, p: Publisher, c: ChannelId)
    requires Enabled(s, Send(p, c)) && !s.channels[c].closed
    ensures var n, after := s.publishers[p].number, AfterSend(s, p, c);
            && after.channels == s.channels[c := Offer(s.channels[c], n)]
            && after.publishers == s.publishers[p := Sending(n, s.publishers[p].left - {c})]
            && after.counter == s.counter && after.subs == s.subs
  {
    assert s.channels[c := s.channels[c]] == s.channels;
  }

  lemma NoMoreOffers(a: Sys, b: Sys, p: Publisher, left: set<ChannelId>)
    requires PartlySent(a, b, p, left) && Enabled(b, Unlock(p))
    ensures var after := Next(b, Unlock(p));
            && after.counter == a.counter + 1 && after.subs == a.subs && after.publishers == a.publishers
            && OfferedToAll(a.channels, after.channels, a.subs, a.counter + 1)
  {
    hide OfferedToAll;
    assert a.subs - left == a.subs;
  }

  lemma {:induction false} SendsOfOne(trace: seq<Sys>, steps: seq<Step>, i: nat, p: Publisher, order: seq<ChannelId>, k: nat) returns (left: set<ChannelId>)
    requires IsRun(trace, steps) && PublishesAlone(steps, i, p, order) && k <= |order|
    ensures PartlySent(trace[i], trace[i + 2 + k], p, left)
  {
    hide Next, Inv, Enabled, PartlySent;
    if k == 0 {
      left := trace[i].subs;
      FirstOffer(trace[i], p);
    } else {
      var before := SendsOfOne(trace, steps, i, p, order, k - 1);
      RunKeepsInv(trace, steps, i + 1 + k);
      assert steps[i + 2 + (k - 1)] == Send(p, order[k - 1]);
      left := before - {order[k - 1]};
      OneMoreOffer(trace[i], trace[i + 1 + k], p, before, order[k - 1]);
      SendIsAfterSend(trace[i + 1 + k], p, order[k - 1]);
    }
  }

  lemma SendIsAfterSend(s: Sys, p: Publisher, c: ChannelId)
    requires Enabled(s, Send(p, c))
    ensures Next(s, Send(p, c)) == AfterSend(s, p, c)
  {
  }

  /** A publish that nothing interrupts offers its event once to every channel that was
      subscribed: what the bus's publish is specified to do. */
  lemma AlonePublishIsAtomic(trace: seq<Sys>, steps: seq<Step>, i: nat, p: Publisher, order: seq<ChannelId>)
    requires IsRun(trace, steps) && PublishesAlone(steps, i, p, order)
    ensures var a, b := trace[i], trace[i + 3 + |order|];
            && b.counter == a.counter + 1 && b.subs == a.subs && b.publishers == a.publishers
            && OfferedToAll(a.channels, b.channels, a.subs, a.counter + 1)
  {
    hide Next, Inv, Enabled, PartlySent, OfferedToAll;
    var left := SendsOfOne(trace, steps, i, p, order, |order|);
    NoMoreOffers(trace[i], trace[i + 2 + |order|], p, left);
  }
}
