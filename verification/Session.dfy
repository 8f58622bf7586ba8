/** One app's live session (assistant/session.go): the run flag, and the fan-out of
    published events to bounded subscriber channels.

    A channel outlives its registration, since the watcher still holds it; so `channels`
    lists every channel made, at its subscription id, and `subs` the registered ids. */
module Session {
  import opened Transcript

  const SUB_CHAN_BUFFER := 256
  const MAX_SUBS_PER_APP := 64

  type Event = string

  /** `received` is what the watcher has read so far. Sending on or closing a closed channel
      panics. */
  datatype Channel = Channel(received: seq<Event>, buffer: seq<Event>, closed: bool) {
    function Send(ev: Event): Channel
      requires !closed && |buffer| < SUB_CHAN_BUFFER
    {
      this.(buffer := buffer + [ev])
    }

    function Close(): Channel
      requires !closed
    {
      this.(closed := true)
    }

    function Receive(): Channel
      requires buffer != []
    {
      this.(received := received + [buffer[0]], buffer := buffer[1..])
    }

    /** A non-blocking send: a channel whose buffer is full is closed instead. */
    function Offer(ev: Event): Channel
      requires !closed
    {
      if |buffer| < SUB_CHAN_BUFFER then Send(ev) else Close()
    }

    /** Everything this watcher has got or will get if nothing more is sent. */
    function Content(): seq<Event> { received + buffer }
  }

  /** The watchers of a session; every event published on it; and, for each subscription,
      how many events had been published before it. */
  datatype Feed = Feed(subs: set<nat>, channels: seq<Channel>, nextSub: nat, log: seq<Event>, joined: seq<nat>) {
    /** Exactly the registered channels are open: what the source relies on never to panic. */
    ghost predicate Open() {
      forall id: nat :: id in subs <==> id < |channels| && !channels[id].closed
    }

    ghost predicate Sound() {
      && Open()
      && |subs| <= MAX_SUBS_PER_APP
      && nextSub == |channels| == |joined|
      && forall id :: 0 <= id < |channels| ==> Follows(channels[id], joined[id], log)
    }

    function Publish(ev: Event): Feed
      requires Open()
    {
      this.(subs := (set id | id in subs && |channels[id].buffer| < SUB_CHAN_BUFFER),
            channels := Offered(channels, subs, ev), log := log + [ev])
    }

    function Subscribe(): Feed {
      if |subs| >= MAX_SUBS_PER_APP then this
      else this.(subs := subs + {nextSub}, channels := channels + [Channel([], [], false)],
                 nextSub := nextSub + 1, joined := joined + [|log|])
    }

    function Unsubscribe(id: nat): Feed
      requires Open()
    {
      if id !in subs then this
      else this.(subs := subs - {id}, channels := channels[id := channels[id].Close()])
    }

    function Receive(id: nat): Feed {
      if id < |channels| && channels[id].buffer != [] then
        this.(channels := channels[id := channels[id].Receive()])
      else this
    }
  }

  function Offered(channels: seq<Channel>, to: set<nat>, ev: Event): (r: seq<Channel>)
    requires forall id :: id in to ==> id < |channels| && !channels[id].closed
    ensures |r| == |channels|
    ensures forall id :: 0 <= id < |r| ==> r[id] == if id in to then channels[id].Offer(ev) else channels[id]
  {
    seq(|channels|, id requires 0 <= id < |channels| => if id in to then channels[id].Offer(ev) else channels[id])
  }

  /** The slice of the log a watcher that joined at `from` has. An open channel has it up to
      the last event. */
  ghost predicate Follows(c: Channel, from: nat, log: seq<Event>) {
    && from + |c.Content()| <= |log|
    && c.Content() == log[from..from + |c.Content()|]
    && |c.buffer| <= SUB_CHAN_BUFFER
    && (!c.closed ==> from + |c.Content()| == |log|)
  }

  function NewFeed(): Feed { Feed({}, [], 0, [], []) }

  /** An offered event, or one a closed channel does not get. */
  lemma FollowsOn(c: Channel, from: nat, log: seq<Event>, ev: Event)
    requires Follows(c, from, log)
    ensures Follows(if c.closed then c else c.Offer(ev), from, log + [ev])
  {
    var log' := log + [ev];
    assert log'[from..from + |c.Content()|] == log[from..from + |c.Content()|];
    if !c.closed && |c.buffer| < SUB_CHAN_BUFFER {
      assert c.Send(ev).Content() == c.Content() + [ev];
      assert log'[from..|log'|] == log[from..|log|] + [ev];
    }
  }

  lemma SubsetSize(a: set<nat>, b: set<nat>)
    requires a <= b
    ensures |a| <= |b|
  {
    if a != b {
      assert b == a + (b - a);
    }
  }

  /** The loop of `Publish` when the channels `done` have been offered the event. */
  ghost predicate MidPublish(f: Feed, done: set<nat>, ev: Event, subs: set<nat>, channels: seq<Channel>) {
    && f.Open() && done <= f.subs
    && subs == (set id | id in f.subs && (id in done ==> |f.channels[id].buffer| < SUB_CHAN_BUFFER))
    && channels == Offered(f.channels, done, ev)
  }

  lemma AllOffered(f: Feed, ev: Event, subs: set<nat>, channels: seq<Channel>)
    requires MidPublish(f, f.subs, ev, subs, channels)
    ensures subs == f.Publish(ev).subs && channels == f.Publish(ev).channels
  {
  }

  lemma OneOffered(f: Feed, done: set<nat>, id: nat, ev: Event, subs: set<nat>, channels: seq<Channel>)
    requires MidPublish(f, done, ev, subs, channels) && id in f.subs - done
    ensures id < |channels| && !channels[id].closed
    ensures var subs' := if |channels[id].buffer| < SUB_CHAN_BUFFER then subs else subs - {id};
            MidPublish(f, done + {id}, ev, subs', channels[id := channels[id].Offer(ev)])
  {
  }

  lemma PublishSound(f: Feed, ev: Event)
    requires f.Sound()
    ensures f.Publish(ev).Sound()
  {
    SubsetSize(f.Publish(ev).subs, f.subs);
    forall id | 0 <= id < |f.channels| ensures Follows(f.Publish(ev).channels[id], f.joined[id], f.log + [ev]) {
      FollowsOn(f.channels[id], f.joined[id], f.log, ev);
    }
  }

  lemma SubscribeSound(f: Feed)
    requires f.Sound()
    ensures f.Subscribe().Sound()
  {
    var c := Channel([], [], false);
    assert Follows(c, |f.log|, f.log);
  }

  lemma UnsubscribeSound(f: Feed, id: nat)
    requires f.Sound()
    ensures f.Unsubscribe(id).Sound()
  {
    SubsetSize(f.Unsubscribe(id).subs, f.subs);
    if id in f.subs {
      assert Follows(f.channels[id], f.joined[id], f.log);
      assert f.channels[id].Close().Content() == f.channels[id].Content();
    }
  }

  lemma ReceiveKeepsContent(c: Channel)
    requires c.buffer != []
    ensures c.Receive().Content() == c.Content()
  {
  }

  lemma ReceiveSound(f: Feed, id: nat)
    requires f.Sound()
    ensures f.Receive(id).Sound()
  {
    if id < |f.channels| && f.channels[id].buffer != [] {
      assert Follows(f.channels[id], f.joined[id], f.log);
      ReceiveKeepsContent(f.channels[id]);
    }
  }

  // ---- What each operation does for a watcher -----------------------------------------------

  /** A new watcher is registered on an empty, open channel exactly when there are fewer than 64. */
  lemma SubscribeIff(f: Feed)
    requires f.Sound()
    ensures var g := f.Subscribe();
            && (|f.subs| < 64 ==> g.subs == f.subs + {|f.channels|} && |g.channels| == |f.channels| + 1
                                  && g.channels[|f.channels|] == Channel([], [], false) && f.channels <= g.channels)
            && (|f.subs| >= 64 ==> g == f)
  {
  }

  /** A registered watcher gets a published event at the end of what it has if fewer than 256 wait to
      be read; otherwise its channel is closed and it is dropped. Nobody else gets it. */
  lemma PublishReaches(f: Feed, ev: Event, id: nat)
    requires f.Sound() && id < |f.channels|
    ensures var c, g := f.channels[id], f.Publish(ev);
            && |g.channels| == |f.channels|
            && (id in f.subs && |c.buffer| < 256 ==>
                  id in g.subs && g.channels[id] == c.(buffer := c.buffer + [ev]))
            && (id in f.subs && |c.buffer| >= 256 ==> id !in g.subs && g.channels[id] == c.(closed := true))
            && (id !in f.subs ==> id !in g.subs && g.channels[id] == c)
  {
  }

  /** A watcher that leaves is closed, once; one that was dropped before is left alone. */
  lemma UnsubscribeCloses(f: Feed, id: nat)
    requires f.Sound() && id < |f.channels|
    ensures var g := f.Unsubscribe(id);
            && g.subs == f.subs - {id} && g.channels[id].closed
            && g.channels == f.channels[id := f.channels[id].(closed := true)]
  {
    if id !in f.subs {
      assert f.channels[id].closed;
      assert f.channels[id := f.channels[id]] == f.channels;
    }
  }

  /** A watcher reads the oldest event that waits. */
  lemma ReceiveOldest(f: Feed, id: nat)
    requires f.Sound() && id < |f.channels| && f.channels[id].buffer != []
    ensures var c, d := f.channels[id], f.Receive(id).channels[id];
            && d.received == c.received + [c.buffer[0]] && d.buffer == c.buffer[1..] && d.closed == c.closed
  {
  }

  // ---- Whole runs -------------------------------------------------------------------------

  datatype Op = Publish(ev: Event) | Subscribe | Unsubscribe(id: nat) | Receive(id: nat)

  function Apply(f: Feed, op: Op): (r: Feed)
    requires f.Sound()
    ensures r.Sound()
  {
    match op
    case Publish(ev) => PublishSound(f, ev); f.Publish(ev)
    case Subscribe => SubscribeSound(f); f.Subscribe()
    case Unsubscribe(id) => UnsubscribeSound(f, id); f.Unsubscribe(id)
    case Receive(id) => ReceiveSound(f, id); f.Receive(id)
  }

  /** Every operation holds the session's lock, so a run is a sequence of them. */
  function RunFrom(f: Feed, ops: seq<Op>): (r: Feed)
    requires f.Sound()
    ensures r.Sound()
    decreases |ops|
  {
    if ops == [] then f else RunFrom(Apply(f, ops[0]), ops[1..])
  }

  /** A channel only ever gains events at the end, none once it is closed, it is never
      reopened. */
  ghost predicate Grew(before: Channel, after: Channel) {
    && before.Content() <= after.Content()
    && before.received <= after.received
    && (before.closed ==> after.closed && after.Content() == before.Content())
  }

  /** What one operation does to one channel. */
  function Touched(c: Channel, id: nat, op: Op): Channel {
    match op
    case Publish(ev) => if c.closed then c else c.Offer(ev)
    case Subscribe => c
    case Unsubscribe(k) => if k == id && !c.closed then c.Close() else c
    case Receive(k) => if k == id && c.buffer != [] then c.Receive() else c
  }

  lemma TouchedGrows(c: Channel, id: nat, op: Op)
    ensures Grew(c, Touched(c, id, op))
  {
    match op
    case Publish(ev) =>
      if !c.closed && |c.buffer| < SUB_CHAN_BUFFER { assert c.Send(ev).Content() == c.Content() + [ev]; }
    case Receive(k) =>
      if c.buffer != [] { ReceiveKeepsContent(c); }
    case _ =>
  }

  lemma ApplyTouches(f: Feed, op: Op, id: nat)
    requires f.Sound() && id < |f.channels|
    ensures id < |Apply(f, op).channels| && Apply(f, op).channels[id] == Touched(f.channels[id], id, op)
    ensures Apply(f, op).joined[id] == f.joined[id]
  {
  }

  /** Over every run and for every watcher: what it had stays, what it gets continues it,
      and after it is dropped it gets nothing more. */
  lemma {:induction false} WatcherOnlyGrows(f: Feed, ops: seq<Op>, id: nat)
    requires f.Sound() && id < |f.channels|
    ensures var g := RunFrom(f, ops);
            id < |g.channels| && Grew(f.channels[id], g.channels[id]) && g.joined[id] == f.joined[id]
    decreases |ops|
  {
    if ops != [] {
      ApplyTouches(f, ops[0], id);
      TouchedGrows(f.channels[id], id, ops[0]);
      WatcherOnlyGrows(Apply(f, ops[0]), ops[1..], id);
      GrewOn(f.channels[id], Apply(f, ops[0]).channels[id], RunFrom(f, ops).channels[id]);
    }
  }

  lemma GrewOn(a: Channel, b: Channel, c: Channel)
    requires Grew(a, b) && Grew(b, c)
    ensures Grew(a, c)
  {
  }

  /** Over every run from an empty session: at most 64 watchers; each watcher's events are a
      gap-free slice of what was published since it joined, complete as long as its channel
      is open; and exactly the unregistered channels are closed. */
  lemma EveryRunSound(ops: seq<Op>, id: nat)
    requires id < |RunFrom(NewFeed(), ops).channels|
    ensures var f := RunFrom(NewFeed(), ops);
            var c, from := f.channels[id], f.joined[id];
            && |f.subs| <= MAX_SUBS_PER_APP
            && (id in f.subs <==> !c.closed)
            && from + |c.Content()| <= |f.log|
            && c.Content() == f.log[from..from + |c.Content()|]
            && (!c.closed ==> from + |c.Content()| == |f.log|)
  {
    var f := RunFrom(NewFeed(), ops);
    assert Follows(f.channels[id], f.joined[id], f.log);
  }

  // ---- The source's object ------------------------------------------------------------------

  type CancelFunc = nat

  class Session {
    var running: bool
    var cancel: Option<CancelFunc>
    var subs: set<nat>
    var channels: seq<Channel>
    var nextSub: nat
    ghost var log: seq<Event>
    ghost var joined: seq<nat>
    ghost var cancelled: seq<CancelFunc>

    ghost function Abs(): Feed
      reads this
    {
      Feed(subs, channels, nextSub, log, joined)
    }

    ghost predicate Valid()
      reads this
    {
      Abs().Sound()
    }

    constructor ()
      ensures Valid() && Abs() == NewFeed() && !running && cancel.None? && cancelled == []
    {
      running, cancel, subs, channels, nextSub := false, None, {}, [], 0;
      log, joined, cancelled := [], [], [];
    }

    method Publish(ev: Event)
      requires Valid()
      modifies this`subs, this`channels, this`log
      ensures Abs() == Apply(old(Abs()), Op.Publish(ev))
      ensures Valid()
    {
      OfferAll(ev);
      log := log + [ev];
    }

    /** The loop of `Publish`: offers the event to every registered channel, in no particular
        order, dropping the ones that are full. */
    method OfferAll(ev: Event)
      requires Abs().Open()
      modifies this`subs, this`channels
      ensures subs == old(Abs()).Publish(ev).subs && channels == old(Abs()).Publish(ev).channels
    {
      ghost var before := Abs();
      var todo := subs;
      assert before.subs - todo == {};
      while todo != {}
        invariant todo <= before.subs
        invariant MidPublish(before, before.subs - todo, ev, subs, channels)
        decreases |todo|
      {
        var id :| id in todo;
        OneOffered(before, before.subs - todo, id, ev, subs, channels);
        assert before.subs - (todo - {id}) == before.subs - todo + {id};
        todo := todo - {id};
        OfferTo(id, ev);
      }
      assert before.subs - todo == before.subs;
      AllOffered(before, ev, subs, channels);
    }

    /** The non-blocking send of `Publish` to one channel. */
    method OfferTo(id: nat, ev: Event)
      requires id < |channels| && !channels[id].closed
      modifies this`subs, this`channels
      ensures subs == if |old(channels)[id].buffer| < SUB_CHAN_BUFFER then old(subs) else old(subs) - {id}
      ensures channels == old(channels)[id := old(channels)[id].Offer(ev)]
    {
      if |channels[id].buffer| < SUB_CHAN_BUFFER {
        channels := channels[id := channels[id].Send(ev)];
      } else {
        subs := subs - {id};
        channels := channels[id := channels[id].Close()];
      }
    }

    method Subscribe() returns (id: nat, ok: bool)
      requires Valid()
      modifies this`subs, this`channels, this`nextSub, this`joined
      ensures Abs() == Apply(old(Abs()), Op.Subscribe)
      ensures Valid()
      ensures ok <==> |old(subs)| < MAX_SUBS_PER_APP
      ensures ok ==> id == old(nextSub) && id in subs && id < |joined| && joined[id] == |log|
    {
      if |subs| >= MAX_SUBS_PER_APP {
        return 0, false;
      }
      id := nextSub;
      nextSub := nextSub + 1;
      channels := channels + [Channel.Channel([], [], false)];
      joined := joined + [|log|];
      subs := subs + {id};
      ok := true;
    }

    method Unsubscribe(id: nat)
      requires Valid()
      modifies this`subs, this`channels
      ensures Abs() == Apply(old(Abs()), Op.Unsubscribe(id))
      ensures Valid()
    {
      if id in subs {
        subs := subs - {id};
        channels := channels[id := channels[id].Close()];
      }
    }

    /** Claims the session for a run. */
    method Begin() returns (claimed: bool)
      modifies this`running
      ensures claimed == !old(running) && running
    {
      if running { return false; }
      running := true;
      return true;
    }

    method End()
      modifies this`running, this`cancel
      ensures !running && cancel.None?
    {
      running := false;
      cancel := None;
    }

    method SetCancel(c: CancelFunc)
      modifies this`cancel
      ensures cancel == Some(c)
    {
      cancel := Some(c);
    }

    /** Calls the holder's cancel function if there is a run and it has set one. */
    method Stop() returns (stopped: bool)
      modifies this`cancelled
      ensures stopped == (running && cancel.Some?)
      ensures cancelled == if stopped then old(cancelled) + [cancel.value] else old(cancelled)
    {
      if running && cancel.Some? {
        cancelled := cancelled + [cancel.value];
        return true;
      }
      return false;
    }
  }
}
