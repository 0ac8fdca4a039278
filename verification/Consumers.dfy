/** The competing consumers of scripts/test-worker-multi-instance.js around one AMQP queue. */
module Consumers {
  import opened Common

  const PREFETCH := 1

  /** Numbers of jobs and of consumers; 12 and 2 in the script. */
  datatype Config = Config(jobs: nat, consumers: nat)

  /** What a child sends to its parent, in order. */
  datatype Message = Ready | Active(active: int) | Done(id: nat)

  datatype Parent = Parent(ready: nat, published: bool, seen: set<nat>, counts: seq<nat>, resolved: bool, failed: bool)

  /** A child process: its counter, the deliveries in its handler, and its messages under way to the parent. */
  datatype Child = Child(subscribed: bool, open: bool, active: int, handling: set<nat>, outbox: seq<Message>)

  /** What the broker holds for one consumer: unacknowledged deliveries, and acks written but not yet processed. */
  datatype Channel = Channel(unacked: set<nat>, acks: set<nat>)

  datatype State = State(parent: Parent, children: seq<Child>, channels: seq<Channel>, queue: seq<nat>, acked: set<nat>, stopping: bool)

  datatype Step =
    | Subscribe(c: nat)
    | Deliver(c: nat)
    | Finish(c: nat, id: nat)
    | SettleAck(c: nat, id: nat)
    | Receive(c: nat)
    | Stop
    | Close(c: nat)

  function Init(cfg: Config): State {
    State(
      Parent(0, false, {}, seq(cfg.consumers, _ => 0), false, false),
      seq(cfg.consumers, _ => Child(false, true, 0, {}, [])),
      seq(cfg.consumers, _ => Channel({}, {})),
      [], {}, false)
  }

  // ---- The handlers ----

  function OnMessage(cfg: Config, p: Parent, index: nat, m: Message): Parent
    requires index < |p.counts|
  {
    match m
    case Active(n) => if n == 1 then p else p.(failed := true)
    case Ready => p.(ready := p.ready + 1, published := p.published || p.ready + 1 == cfg.consumers)
    case Done(id) =>
      if id >= cfg.jobs || id in p.seen then p.(failed := true)
      else p.(
        seen := p.seen + {id},
        counts := p.counts[index := p.counts[index] + 1],
        resolved := p.resolved || |p.seen| + 1 == cfg.jobs)
  }

  function OnDelivery(child: Child, id: nat): Child {
    child.(active := child.active + 1, handling := child.handling + {id}, outbox := child.outbox + [Active(child.active + 1)])
  }

  function OnTimer(child: Child, id: nat): Child {
    child.(active := child.active - 1, handling := child.handling - {id}, outbox := child.outbox + [Done(id)])
  }

  class ParentProcess {
    const cfg: Config
    var ready: nat
    var published: bool
    var seen: set<nat>
    var counts: seq<nat>
    var resolved: bool
    var failed: bool

    constructor (cfg: Config)
      ensures this.cfg == cfg && Current() == Init(cfg).parent
    {
      this.cfg := cfg;
      ready, published, seen, counts, resolved, failed := 0, false, {}, seq(cfg.consumers, _ => 0), false, false;
    }

    ghost function Current(): Parent
      reads this
    {
      Parent(ready, published, seen, counts, resolved, failed)
    }

    method HandleMessage(index: nat, m: Message)
      requires index < |counts|
      modifies this
      ensures Current() == OnMessage(cfg, old(Current()), index, m)
    {
      match m
      case Active(n) =>
        if n != 1 { failed := true; }
      case Ready =>
        ready := ready + 1;
        if ready == cfg.consumers { published := true; }
      case Done(id) =>
        if id >= cfg.jobs || id in seen {
          failed := true;
          return;
        }
        seen := seen + {id};
        counts := counts[index := counts[index] + 1];
        if |seen| == cfg.jobs { resolved := true; }
    }
  }

  class ChildProcess {
    var subscribed: bool
    var open: bool
    var active: int
    ghost var handling: set<nat>
    var outbox: seq<Message>
    /** The acks written to the channel. */
    var acks: seq<nat>

    constructor ()
      ensures Current() == Child(false, true, 0, {}, []) && acks == []
    {
      subscribed, open, active, handling, outbox, acks := false, true, 0, {}, [], [];
    }

    ghost function Current(): Child
      reads this
    {
      Child(subscribed, open, active, handling, outbox)
    }

    /** The delivery callback up to its timer. */
    method HandleDelivery(id: nat)
      modifies this
      ensures Current() == OnDelivery(old(Current()), id) && acks == old(acks)
    {
      active := active + 1;
      handling := handling + {id};
      outbox := outbox + [Active(active)];
    }

    /** The rest of the callback: the ack is written before the report. */
    method HandleTimer(id: nat)
      modifies this
      ensures Current() == OnTimer(old(Current()), id) && acks == old(acks) + [id]
    {
      active := active - 1;
      handling := handling - {id};
      acks := acks + [id];
      outbox := outbox + [Done(id)];
    }
  }

  // ---- The protocol ----

  ghost predicate Shaped(cfg: Config, s: State) {
    |s.children| == |s.channels| == |s.parent.counts| == cfg.consumers
  }

  predicate Enabled(cfg: Config, s: State, e: Step)
    requires Shaped(cfg, s)
  {
    match e
    case Subscribe(c) => c < cfg.consumers && !s.children[c].subscribed
    case Deliver(c) =>
      c < cfg.consumers && s.children[c].subscribed && s.children[c].open
      && s.queue != [] && |s.channels[c].unacked| < PREFETCH
    case Finish(c, id) => c < cfg.consumers && s.children[c].open && id in s.children[c].handling
    case SettleAck(c, id) => c < cfg.consumers && s.children[c].open && id in s.channels[c].acks
    case Receive(c) => c < cfg.consumers && s.children[c].outbox != []
    case Stop => s.parent.resolved && !s.stopping
    case Close(c) => c < cfg.consumers && s.stopping && s.children[c].open
  }

  /** The order in which a broker puts back deliveries is its own. */
  ghost function Requeued(ids: set<nat>): (r: seq<nat>)
    ensures forall id :: id in r <==> id in ids
    ensures Distinct(r) && (ids == {} ==> r == [])
  {
    if ids == {} then [] else
      var id :| id in ids;
      [id] + Requeued(ids - {id})
  }

  /** The ids 0 to n - 1, in sending order. */
  function AllJobs(n: nat): (r: seq<nat>)
    ensures |r| == n && Distinct(r) && forall id: nat :: id in r <==> id < n
    ensures forall i :: 0 <= i < n ==> r[i] == i
  {
    if n == 0 then [] else AllJobs(n - 1) + [n - 1]
  }

  ghost function Apply(cfg: Config, s: State, e: Step): State
    requires Shaped(cfg, s) && Enabled(cfg, s, e)
  {
    match e
    case Subscribe(c) =>
      var child := s.children[c];
      s.(children := s.children[c := child.(subscribed := true, outbox := child.outbox + [Ready])])
    case Deliver(c) =>
      var id := s.queue[0];
      s.(queue := s.queue[1..],
         channels := s.channels[c := s.channels[c].(unacked := s.channels[c].unacked + {id})],
         children := s.children[c := OnDelivery(s.children[c], id)])
    case Finish(c, id) =>
      s.(channels := s.channels[c := s.channels[c].(acks := s.channels[c].acks + {id})],
         children := s.children[c := OnTimer(s.children[c], id)])
    case SettleAck(c, id) =>
      var channel := s.channels[c];
      s.(channels := s.channels[c := Channel(channel.unacked - {id}, channel.acks - {id})], acked := s.acked + {id})
    case Receive(c) =>
      var child := s.children[c];
      var parent := OnMessage(cfg, s.parent, c, child.outbox[0]);
      s.(children := s.children[c := child.(outbox := child.outbox[1..])],
         parent := parent,
         // the jobs are sent when the last consumer reports ready
         queue := if parent.published && !s.parent.published then s.queue + AllJobs(cfg.jobs) else s.queue)
    case Stop => s.(stopping := true)
    case Close(c) =>
      // closing flushes the acks; deliveries still unacknowledged go back to the queue
      var channel := s.channels[c];
      s.(acked := s.acked + channel.acks,
         queue := Requeued(channel.unacked - channel.acks) + s.queue,
         channels := s.channels[c := Channel({}, {})],
         children := s.children[c := s.children[c].(open := false, active := 0, handling := {})])
  }

  // ---- What every step keeps ----

  /** Where a job is, and where the report of its completion is. */
  datatype Place = Unpublished | Queued | Handled(c: nat) | AckSent(c: nat) | Settled
  datatype Report = Unsent | InTransit(c: nat) | Counted(c: nat)

  /** A view of the state by job: every job has one place and one report. */
  datatype View = View(place: seq<Place>, report: seq<Report>, greeted: set<nat>) {
    function At(id: nat): Place {
      if id < |place| then place[id] else Unpublished
    }

    function Reported(id: nat): Report {
      if id < |report| then report[id] else Unsent
    }

    function Moved(id: nat, p: Place): (v: View)
      requires id < |place|
      ensures forall i: nat :: v.At(i) == if i == id then p else At(i)
      ensures forall i: nat :: v.Reported(i) == Reported(i)
      ensures |v.place| == |place| && v.report == report && v.greeted == greeted
    {
      View(place[id := p], report, greeted)
    }

    function Told(id: nat, r: Report): (v: View)
      requires id < |report|
      ensures forall i: nat :: v.Reported(i) == if i == id then r else Reported(i)
      ensures forall i: nat :: v.At(i) == At(i)
      ensures v.place == place && |v.report| == |report| && v.greeted == greeted
    {
      View(place, report[id := r], greeted)
    }
  }

  ghost predicate QueueOk(jobs: nat, queue: seq<nat>, acked: set<nat>, published: bool, v: View) {
    && Distinct(queue)
    && (forall id: nat :: id in queue <==> v.At(id) == Queued)
    && (forall id: nat :: id in acked <==> v.At(id) == Settled)
    && (forall id: nat :: id < jobs ==> (v.At(id) == Unpublished <==> !published))
    && (forall id: nat :: v.Reported(id) == Unsent <==> !v.At(id).AckSent? && !v.At(id).Settled?)
  }

  ghost predicate ChannelOk(child: Child, channel: Channel, stopping: bool, v: View, c: nat) {
    && (forall id: nat :: id in child.handling <==> v.At(id) == Handled(c))
    && (forall id: nat :: id in channel.acks <==> v.At(id) == AckSent(c))
    && channel.unacked == child.handling + channel.acks
    && |channel.unacked| <= PREFETCH
    && child.active == |child.handling|
    && (!child.open ==> channel.unacked == {} && stopping)
  }

  ghost predicate OutboxOk(out: seq<Message>, subscribed: bool, v: View, c: nat) {
    && (forall i :: 0 <= i < |out| && out[i].Active? ==> out[i].active == 1)
    && (forall i, j :: 0 <= i < j < |out| && !out[i].Active? ==> out[i] != out[j])
    && (forall id: nat :: Done(id) in out <==> v.Reported(id) == InTransit(c))
    && (c in v.greeted <==> subscribed && Ready !in out)
    && (Ready in out ==> subscribed)
  }

  /** The jobs whose completion the parent heard from consumer `c`. */
  ghost function CountedFrom(seen: set<nat>, v: View, c: nat): set<nat> {
    set id | id in seen && v.Reported(id) == Counted(c)
  }

  ghost predicate ParentOk(cfg: Config, parent: Parent, stopping: bool, v: View) {
    && !parent.failed
    && (forall id: nat :: id in parent.seen <==> v.Reported(id).Counted?)
    && (forall c :: 0 <= c < |parent.counts| ==> parent.counts[c] == |CountedFrom(parent.seen, v, c)|)
    && (parent.resolved <==> |parent.seen| == cfg.jobs > 0)
    && (stopping ==> parent.resolved)
    && parent.ready == |v.greeted|
    && (parent.published <==> |v.greeted| == cfg.consumers > 0)
  }

  ghost predicate ViewOk(cfg: Config, v: View) {
    && |v.place| == |v.report| == cfg.jobs
    && (forall id: nat :: v.At(id).Handled? ==> v.At(id).c < cfg.consumers)
    && (forall id: nat :: v.At(id).AckSent? ==> v.At(id).c < cfg.consumers)
    && (forall id: nat :: v.Reported(id).InTransit? ==> v.Reported(id).c < cfg.consumers)
    && (forall c :: c in v.greeted ==> c < cfg.consumers)
  }

  ghost predicate Invariant(cfg: Config, s: State, v: View) {
    && Shaped(cfg, s) && ViewOk(cfg, v)
    && QueueOk(cfg.jobs, s.queue, s.acked, s.parent.published, v)
    && ParentOk(cfg, s.parent, s.stopping, v)
    && (forall c: nat :: c < cfg.consumers ==> ChannelOk(s.children[c], s.channels[c], s.stopping, v, c))
    && (forall c: nat :: c < cfg.consumers ==> OutboxOk(s.children[c].outbox, s.children[c].subscribed, v, c))
  }

  lemma InitOk(cfg: Config)
    ensures Invariant(cfg, Init(cfg), View(seq(cfg.jobs, _ => Unpublished), seq(cfg.jobs, _ => Unsent), {}))
  {
  }

  // A step at consumer `c` changes places and reports that concern no other consumer.

  predicate PlacedAt(p: Place, c: nat) {
    p.Handled? || p.AckSent? ==> p.c == c
  }

  predicate SentBy(r: Report, c: nat) {
    r.InTransit? ==> r.c == c
  }

  ghost predicate ChangesAt(v: View, v': View, c: nat) {
    && |v'.place| == |v.place| && |v'.report| == |v.report|
    && (forall k: nat :: k != c ==> (k in v'.greeted <==> k in v.greeted))
    && (forall id: nat :: v'.At(id) == v.At(id) || (PlacedAt(v.At(id), c) && PlacedAt(v'.At(id), c)))
    && (forall id: nat :: v'.Reported(id) == v.Reported(id) || (SentBy(v.Reported(id), c) && SentBy(v'.Reported(id), c)))
  }

  lemma MovedChanges(v: View, id: nat, p: Place, c: nat)
    requires id < |v.place| && PlacedAt(v.At(id), c) && PlacedAt(p, c)
    ensures ChangesAt(v, v.Moved(id, p), c)
  {
  }

  lemma ToldChanges(v: View, id: nat, r: Report, c: nat)
    requires id < |v.report| && SentBy(v.Reported(id), c) && SentBy(r, c)
    ensures ChangesAt(v, v.Told(id, r), c)
  {
  }

  lemma ChangesCompose(v: View, v1: View, v2: View, c: nat)
    requires ChangesAt(v, v1, c) && ChangesAt(v1, v2, c)
    ensures ChangesAt(v, v2, c)
  {
  }

  lemma OthersKept(child: Child, channel: Channel, stopping: bool, v: View, v': View, c: nat, k: nat)
    requires ChangesAt(v, v', c) && k != c
    requires ChannelOk(child, channel, stopping, v, k) && OutboxOk(child.outbox, child.subscribed, v, k)
    ensures ChannelOk(child, channel, stopping, v', k) && OutboxOk(child.outbox, child.subscribed, v', k)
  {
  }

  lemma ViewKept(cfg: Config, v: View, v': View, c: nat)
    requires ViewOk(cfg, v) && ChangesAt(v, v', c) && c < cfg.consumers
    ensures ViewOk(cfg, v')
  {
  }

  /** The invariant after a step at consumer `c`, from the parts the step touches. */
  lemma Assemble(cfg: Config, s: State, s': State, v: View, v': View, c: nat)
    requires Invariant(cfg, s, v) && Shaped(cfg, s') && s'.stopping == s.stopping && c < cfg.consumers
    requires s'.children == s.children[c := s'.children[c]] && s'.channels == s.channels[c := s'.channels[c]]
    requires ChangesAt(v, v', c)
    requires QueueOk(cfg.jobs, s'.queue, s'.acked, s'.parent.published, v')
    requires ParentOk(cfg, s'.parent, s'.stopping, v')
    requires ChannelOk(s'.children[c], s'.channels[c], s'.stopping, v', c)
    requires OutboxOk(s'.children[c].outbox, s'.children[c].subscribed, v', c)
    ensures Invariant(cfg, s', v')
  {
    hide QueueOk, ParentOk, ChannelOk, OutboxOk, ViewOk, ChangesAt;
    ViewKept(cfg, v, v', c);
    forall k: nat | k < cfg.consumers && k != c
      ensures ChannelOk(s'.children[k], s'.channels[k], s'.stopping, v', k)
      ensures OutboxOk(s'.children[k].outbox, s'.children[k].subscribed, v', k)
    {
      OthersKept(s.children[k], s.channels[k], s.stopping, v, v', c, k);
    }
  }

  /** What the invariant says about consumer `c`. */
  lemma At(cfg: Config, s: State, v: View, c: nat)
    requires Invariant(cfg, s, v) && c < cfg.consumers
    ensures Shaped(cfg, s) && ViewOk(cfg, v)
    ensures QueueOk(cfg.jobs, s.queue, s.acked, s.parent.published, v)
    ensures ParentOk(cfg, s.parent, s.stopping, v)
    ensures ChannelOk(s.children[c], s.channels[c], s.stopping, v, c)
    ensures OutboxOk(s.children[c].outbox, s.children[c].subscribed, v, c)
  {
  }

  lemma PushOutbox(out: seq<Message>, subscribed: bool, v: View, v': View, c: nat, m: Message)
    requires OutboxOk(out, subscribed, v, c) && (c in v'.greeted <==> c in v.greeted) && m != Ready
    requires m.Active? ==> m.active == 1
    requires m.Done? ==> v.Reported(m.id) == Unsent
    requires forall id: nat :: v'.Reported(id) == if m == Done(id) then InTransit(c) else v.Reported(id)
    ensures OutboxOk(out + [m], subscribed, v', c)
  {
    var out' := out + [m];
    assert out'[|out|] == m;
    forall x ensures x in out' <==> x in out || x == m {
    }
  }

  lemma PopOutbox(out: seq<Message>, subscribed: bool, v: View, v': View, c: nat)
    requires OutboxOk(out, subscribed, v, c) && out != [] && (c in v'.greeted <==> c in v.greeted || out[0] == Ready)
    requires forall id: nat :: v'.Reported(id) == if out[0] == Done(id) then Counted(c) else v.Reported(id)
    ensures OutboxOk(out[1..], subscribed, v', c)
    ensures out[0].Done? ==> v.Reported(out[0].id) == InTransit(c)
    ensures out[0] == Ready ==> c !in v.greeted
    ensures out[0].Active? ==> out[0].active == 1
  {
    var rest := out[1..];
    assert out[0] in out;
    forall m ensures m in rest <==> m in out && (m == out[0] ==> m.Active? && m in rest) {
      if m in rest {
        var i :| 0 <= i < |rest| && rest[i] == m;
        assert out[i + 1] == m;
      }
    }
  }

  lemma SubscribeOk(cfg: Config, s: State, v: View, c: nat)
    requires Invariant(cfg, s, v) && Enabled(cfg, s, Subscribe(c))
    ensures Invariant(cfg, Apply(cfg, s, Subscribe(c)), v)
  {
    hide Invariant, QueueOk, ParentOk;
    At(cfg, s, v, c);
    var s' := Apply(cfg, s, Subscribe(c));
    var child := s.children[c];
    PushOutboxReady(child.outbox, v, c);
    hide ChannelOk, OutboxOk;
    Assemble(cfg, s, s', v, v, c);
  }

  lemma PushOutboxReady(out: seq<Message>, v: View, c: nat)
    requires OutboxOk(out, false, v, c)
    ensures OutboxOk(out + [Ready], true, v, c)
  {
    assert (out + [Ready])[|out|] == Ready;
  }

  lemma DeliverOk(cfg: Config, s: State, v: View, c: nat)
    requires Invariant(cfg, s, v) && Enabled(cfg, s, Deliver(c))
    ensures s.queue[0] < cfg.jobs
    ensures Invariant(cfg, Apply(cfg, s, Deliver(c)), v.Moved(s.queue[0], Handled(c)))
  {
    hide Invariant, ParentOk, OutboxOk, ChangesAt;
    At(cfg, s, v, c);
    var s' := Apply(cfg, s, Deliver(c));
    var id := s.queue[0];
    assert id in s.queue && v.At(id) == Queued;
    var v' := v.Moved(id, Handled(c));
    assert s.channels[c].unacked == {} && s.children[c].handling == {};
    MovedChanges(v, id, Handled(c), c);
    PushOutbox(s.children[c].outbox, s.children[c].subscribed, v, v', c, Active(1));
    ParentIgnoresPlaces(cfg, s.parent, s.stopping, v, v');
    Dequeue(cfg.jobs, s.queue, s.acked, s.parent.published, v, c);
    assert ChannelOk(s'.children[c], s'.channels[c], s.stopping, v', c);
    hide QueueOk, ChannelOk;
    Assemble(cfg, s, s', v, v', c);
  }

  lemma Dequeue(jobs: nat, queue: seq<nat>, acked: set<nat>, published: bool, v: View, c: nat)
    requires QueueOk(jobs, queue, acked, published, v) && queue != [] && queue[0] < |v.place|
    ensures QueueOk(jobs, queue[1..], acked, published, v.Moved(queue[0], Handled(c)))
  {
    assert queue == [queue[0]] + queue[1..];
    assert v.At(queue[0]) == Queued;
  }

  lemma ParentIgnoresPlaces(cfg: Config, parent: Parent, stopping: bool, v: View, v': View)
    requires ParentOk(cfg, parent, stopping, v) && v'.greeted == v.greeted
    requires forall id: nat :: v.Reported(id).Counted? || v'.Reported(id).Counted? ==> v'.Reported(id) == v.Reported(id)
    ensures ParentOk(cfg, parent, stopping, v')
  {
    forall c: nat ensures CountedFrom(parent.seen, v', c) == CountedFrom(parent.seen, v, c) {
    }
  }

  lemma FinishOk(cfg: Config, s: State, v: View, c: nat, id: nat)
    requires Invariant(cfg, s, v) && Enabled(cfg, s, Finish(c, id))
    ensures id < cfg.jobs
    ensures Invariant(cfg, Apply(cfg, s, Finish(c, id)), v.Moved(id, AckSent(c)).Told(id, InTransit(c)))
  {
    hide Invariant, ParentOk, OutboxOk, ChangesAt, ViewOk;
    At(cfg, s, v, c);
    ViewSizes(cfg, v);
    var s' := Apply(cfg, s, Finish(c, id));
    assert v.At(id) == Handled(c) && v.Reported(id) == Unsent;
    var v1 := v.Moved(id, AckSent(c));
    var v' := v1.Told(id, InTransit(c));
    MovedChanges(v, id, AckSent(c), c);
    ToldChanges(v1, id, InTransit(c), c);
    ChangesCompose(v, v1, v', c);
    PushOutbox(s.children[c].outbox, s.children[c].subscribed, v, v', c, Done(id));
    ParentIgnoresPlaces(cfg, s.parent, s.stopping, v, v');
    hide QueueOk, ChannelOk, View.At, View.Reported;
    FinishQueue(cfg.jobs, s.queue, s.acked, s.parent.published, v, v', c, id);
    FinishChannel(s.children[c], s.channels[c], s.stopping, v, v', c, id);
    Assemble(cfg, s, s', v, v', c);
  }

  lemma FinishQueue(jobs: nat, queue: seq<nat>, acked: set<nat>, published: bool, v: View, v': View, c: nat, id: nat)
    requires QueueOk(jobs, queue, acked, published, v) && v.At(id) == Handled(c)
    requires forall i: nat :: v'.At(i) == if i == id then AckSent(c) else v.At(i)
    requires forall i: nat :: v'.Reported(i) == if i == id then InTransit(c) else v.Reported(i)
    ensures QueueOk(jobs, queue, acked, published, v')
  {
    hide View.At, View.Reported, Distinct;
  }

  lemma FinishChannel(child: Child, channel: Channel, stopping: bool, v: View, v': View, c: nat, id: nat)
    requires ChannelOk(child, channel, stopping, v, c) && id in child.handling && child.open
    requires forall i: nat :: v'.At(i) == if i == id then AckSent(c) else v.At(i)
    ensures ChannelOk(OnTimer(child, id), channel.(acks := channel.acks + {id}), stopping, v', c)
  {
    hide View.At, View.Reported;
  }

  lemma SettleAckOk(cfg: Config, s: State, v: View, c: nat, id: nat)
    requires Invariant(cfg, s, v) && Enabled(cfg, s, SettleAck(c, id))
    ensures id < cfg.jobs
    ensures Invariant(cfg, Apply(cfg, s, SettleAck(c, id)), v.Moved(id, Settled))
  {
    hide Invariant, ParentOk, OutboxOk, QueueOk, ChangesAt, ViewOk;
    At(cfg, s, v, c);
    ViewSizes(cfg, v);
    var s' := Apply(cfg, s, SettleAck(c, id));
    assert v.At(id) == AckSent(c);
    var v' := v.Moved(id, Settled);
    hide ChannelOk, View.At, View.Reported;
    MovedChanges(v, id, Settled, c);
    ParentIgnoresPlaces(cfg, s.parent, s.stopping, v, v');
    OutboxIgnoresPlaces(s.children[c].outbox, s.children[c].subscribed, v, v', c);
    Acknowledge(s.children[c], s.channels[c], s.stopping, v, c, id);
    SettleQueue(cfg.jobs, s.queue, s.acked, s.parent.published, v, c, id);
    Assemble(cfg, s, s', v, v', c);
  }

  lemma OutboxIgnoresPlaces(out: seq<Message>, subscribed: bool, v: View, v': View, c: nat)
    requires OutboxOk(out, subscribed, v, c) && v'.greeted == v.greeted
    requires forall id: nat :: v'.Reported(id) == v.Reported(id)
    ensures OutboxOk(out, subscribed, v', c)
  {
  }

  lemma SettleQueue(jobs: nat, queue: seq<nat>, acked: set<nat>, published: bool, v: View, c: nat, id: nat)
    requires QueueOk(jobs, queue, acked, published, v) && id < |v.place| && v.At(id) == AckSent(c)
    ensures QueueOk(jobs, queue, acked + {id}, published, v.Moved(id, Settled))
  {
  }

  lemma Acknowledge(child: Child, channel: Channel, stopping: bool, v: View, c: nat, id: nat)
    requires ChannelOk(child, channel, stopping, v, c) && id in channel.acks && id < |v.place|
    ensures ChannelOk(child, Channel(channel.unacked - {id}, channel.acks - {id}), stopping, v.Moved(id, Settled), c)
  {
    assert v.At(id) == AckSent(c) && id !in child.handling;
    assert channel.unacked - {id} == child.handling + (channel.acks - {id});
  }

  ghost function Upto(n: nat): (r: set<nat>)
    ensures |r| == n && forall i: nat :: i in r <==> i < n
  {
    if n == 0 then {} else Upto(n - 1) + {n - 1}
  }

  lemma {:induction false} SubsetSize(a: set<nat>, b: set<nat>)
    requires a <= b
    ensures |a| <= |b| && (|a| == |b| ==> a == b)
  {
    if a != {} {
      var x :| x in a;
      SubsetSize(a - {x}, b - {x});
      assert a == (a - {x}) + {x} && b == (b - {x}) + {x};
    } else if b != {} {
      var x :| x in b;
      assert |b| > 0;
    }
  }

  /** When as many ids are seen as there are jobs, every job's report has been counted. */
  lemma AllCounted(cfg: Config, parent: Parent, stopping: bool, v: View)
    requires ParentOk(cfg, parent, stopping, v) && |v.report| == cfg.jobs
    ensures |parent.seen| <= cfg.jobs
    ensures |parent.seen| == cfg.jobs ==> forall id: nat :: id < cfg.jobs ==> v.Reported(id).Counted?
  {
    assert parent.seen <= Upto(cfg.jobs);
    SubsetSize(parent.seen, Upto(cfg.jobs));
  }

  lemma ReceiveActiveOk(cfg: Config, s: State, v: View, c: nat)
    requires Invariant(cfg, s, v) && Enabled(cfg, s, Receive(c)) && s.children[c].outbox[0].Active?
    ensures Invariant(cfg, Apply(cfg, s, Receive(c)), v)
  {
    hide Invariant, QueueOk, ParentOk, OutboxOk, ChannelOk;
    At(cfg, s, v, c);
    var s' := Apply(cfg, s, Receive(c));
    PopOutbox(s.children[c].outbox, s.children[c].subscribed, v, v, c);
    ChannelIgnoresReports(s.children[c], s'.children[c], s.channels[c], s.stopping, v, v, c);
    Assemble(cfg, s, s', v, v, c);
  }

  lemma ReceiveDoneOk(cfg: Config, s: State, v: View, c: nat)
    requires Invariant(cfg, s, v) && Enabled(cfg, s, Receive(c)) && s.children[c].outbox[0].Done?
    ensures s.children[c].outbox[0].id < cfg.jobs
    ensures Invariant(cfg, Apply(cfg, s, Receive(c)), v.Told(s.children[c].outbox[0].id, Counted(c)))
  {
    hide Invariant, QueueOk, ParentOk, OutboxOk, ChannelOk, ChangesAt, ViewOk;
    At(cfg, s, v, c);
    ViewSizes(cfg, v);
    var s' := Apply(cfg, s, Receive(c));
    var out := s.children[c].outbox;
    var id := out[0].id;
    ReportUnderWay(out, s.children[c].subscribed, v, c);
    var v' := v.Told(id, Counted(c));
    hide View.At, View.Reported;
    ToldChanges(v, id, Counted(c), c);
    PopOutbox(out, s.children[c].subscribed, v, v', c);
    CountReport(cfg, s.parent, s.stopping, v, c, id);
    QueueIgnoresCounting(cfg.jobs, s.queue, s.acked, s.parent.published, v, c, id);
    ChannelIgnoresReports(s.children[c], s'.children[c], s.channels[c], s.stopping, v, v', c);
    Assemble(cfg, s, s', v, v', c);
  }

  lemma ReportUnderWay(out: seq<Message>, subscribed: bool, v: View, c: nat)
    requires OutboxOk(out, subscribed, v, c) && out != [] && out[0].Done?
    ensures v.Reported(out[0].id) == InTransit(c)
  {
    assert out[0] in out;
  }

  lemma ChannelIgnoresReports(child: Child, child': Child, channel: Channel, stopping: bool, v: View, v': View, c: nat)
    requires ChannelOk(child, channel, stopping, v, c) && child'.(outbox := child.outbox) == child
    requires forall id: nat :: v'.At(id) == v.At(id)
    ensures ChannelOk(child', channel, stopping, v', c)
  {
  }

  lemma QueueIgnoresCounting(jobs: nat, queue: seq<nat>, acked: set<nat>, published: bool, v: View, c: nat, id: nat)
    requires QueueOk(jobs, queue, acked, published, v) && id < |v.report| && v.Reported(id).InTransit?
    ensures QueueOk(jobs, queue, acked, published, v.Told(id, Counted(c)))
  {
  }

  /** A report under way is neither out of range nor a duplicate, and the last one resolves the wait. */
  lemma CountReport(cfg: Config, parent: Parent, stopping: bool, v: View, c: nat, id: nat)
    requires ParentOk(cfg, parent, stopping, v) && |v.report| == cfg.jobs && c < |parent.counts|
    requires id < cfg.jobs && v.Reported(id).InTransit?
    ensures ParentOk(cfg, OnMessage(cfg, parent, c, Done(id)), stopping, v.Told(id, Counted(c)))
    ensures OnMessage(cfg, parent, c, Done(id)).published == parent.published
  {
    AllCounted(cfg, parent, stopping, v);
    assert id !in parent.seen;
    var v' := v.Told(id, Counted(c));
    hide View.At, View.Reported, View.Told;
    CountsGrow(parent.seen, parent.counts, v, v', c, id);
  }

  lemma CountsGrow(seen: set<nat>, counts: seq<nat>, v: View, v': View, c: nat, id: nat)
    requires id !in seen && c < |counts| && !v.Reported(id).Counted?
    requires forall k :: 0 <= k < |counts| ==> counts[k] == |CountedFrom(seen, v, k)|
    requires forall i: nat :: v'.Reported(i) == if i == id then Counted(c) else v.Reported(i)
    ensures var counts' := counts[c := counts[c] + 1];
      forall k :: 0 <= k < |counts'| ==> counts'[k] == |CountedFrom(seen + {id}, v', k)|
  {
    hide View.Reported;
    forall k: nat ensures CountedFrom(seen + {id}, v', k) == CountedFrom(seen, v, k) + if k == c then {id} else {} {
    }
  }

  /** The view after the parent heard that `c` is ready; with the last one the jobs are published. */
  function Greeted(cfg: Config, v: View, c: nat): View {
    View(if |v.greeted| + 1 == cfg.consumers then seq(|v.place|, _ => Queued) else v.place, v.report, v.greeted + {c})
  }

  lemma ReceiveReadyOk(cfg: Config, s: State, v: View, c: nat)
    requires Invariant(cfg, s, v) && Enabled(cfg, s, Receive(c)) && s.children[c].outbox[0].Ready?
    ensures Invariant(cfg, Apply(cfg, s, Receive(c)), Greeted(cfg, v, c))
  {
    hide Invariant, ParentOk, QueueOk, OutboxOk, ChannelOk, ViewOk, Distinct;
    At(cfg, s, v, c);
    var s' := Apply(cfg, s, Receive(c));
    var v' := Greeted(cfg, v, c);
    var out := s.children[c].outbox;
    GreetedReports(cfg, v, c);
    PopOutbox(out, s.children[c].subscribed, v, v', c);
    GreetParent(cfg, s.parent, s.stopping, v, c);
    PublishOnce(cfg, s.queue, s.acked, v, c);
    GreetedChannel(cfg, s.children[c], s'.children[c], s.channels[c], s.stopping, s.queue, s.acked, v, c);
    Assemble(cfg, s, s', v, v', c);
  }

  lemma GreetedReports(cfg: Config, v: View, c: nat)
    ensures forall id: nat :: Greeted(cfg, v, c).Reported(id) == v.Reported(id)
  {
  }

  lemma GreetedChannel(cfg: Config, child: Child, child': Child, channel: Channel, stopping: bool, queue: seq<nat>, acked: set<nat>, v: View, c: nat)
    requires ChannelOk(child, channel, stopping, v, c) && QueueOk(cfg.jobs, queue, acked, false, v) && ViewOk(cfg, v)
    requires child'.(outbox := child.outbox) == child
    ensures ChannelOk(child', channel, stopping, Greeted(cfg, v, c), c)
  {
    assert forall id: nat :: v.At(id) == Unpublished;
  }

  /** Until the last consumer is ready nothing is published; its message publishes the jobs. */
  lemma GreetParent(cfg: Config, parent: Parent, stopping: bool, v: View, c: nat)
    requires ParentOk(cfg, parent, stopping, v) && ViewOk(cfg, v) && c < cfg.consumers && c !in v.greeted && c < |parent.counts|
    ensures !parent.published && |v.greeted| < cfg.consumers
    ensures OnMessage(cfg, parent, c, Ready).published <==> |v.greeted| + 1 == cfg.consumers
    ensures ParentOk(cfg, OnMessage(cfg, parent, c, Ready), stopping, Greeted(cfg, v, c))
  {
    GreetedReports(cfg, v, c);
    forall k: nat ensures CountedFrom(parent.seen, Greeted(cfg, v, c), k) == CountedFrom(parent.seen, v, k) {
    }
    assert v.greeted <= Upto(cfg.consumers) - {c};
    SubsetSize(v.greeted, Upto(cfg.consumers) - {c});
  }

  lemma HeadIsMember(queue: seq<nat>)
    ensures queue == [] || queue[0] in queue
  {
  }

  lemma PublishOnce(cfg: Config, queue: seq<nat>, acked: set<nat>, v: View, c: nat)
    requires QueueOk(cfg.jobs, queue, acked, false, v) && ViewOk(cfg, v)
    ensures
      var all := |v.greeted| + 1 == cfg.consumers;
      QueueOk(cfg.jobs, if all then queue + AllJobs(cfg.jobs) else queue, acked, all, Greeted(cfg, v, c))
    ensures ChangesAt(v, Greeted(cfg, v, c), c)
  {
    assert forall id: nat :: v.At(id) == Unpublished;
    HeadIsMember(queue);
    assert queue == [] && queue + AllJobs(cfg.jobs) == AllJobs(cfg.jobs);
    var all := |v.greeted| + 1 == cfg.consumers;
    var v' := Greeted(cfg, v, c);
    forall id: nat ensures v'.At(id) == if all && id < cfg.jobs then Queued else Unpublished {
      assert v.At(id) == Unpublished;
      if all && id < cfg.jobs {
        assert v'.place[id] == Queued;
      }
    }
    GreetedReports(cfg, v, c);
    hide Greeted, View.At, View.Reported;
    assert Distinct(queue + AllJobs(cfg.jobs));
    assert forall id: nat :: id in acked <==> v'.At(id) == Settled;
    assert forall id: nat :: id in (if all then queue + AllJobs(cfg.jobs) else queue) <==> v'.At(id) == Queued;
    assert forall id: nat :: v'.Reported(id) == Unsent <==> !v'.At(id).AckSent? && !v'.At(id).Settled?;
  }

  function Flushed(v: View, c: nat): View {
    View(seq(|v.place|, i requires 0 <= i < |v.place| => if v.place[i] == AckSent(c) then Settled else v.place[i]), v.report, v.greeted)
  }

  /** By the time a child may be told to close it has no delivery left, so closing puts nothing back. */
  lemma CloseOk(cfg: Config, s: State, v: View, c: nat)
    requires Invariant(cfg, s, v) && Enabled(cfg, s, Close(c))
    ensures s.channels[c].unacked == s.channels[c].acks && s.children[c].handling == {}
    ensures Invariant(cfg, Apply(cfg, s, Close(c)), Flushed(v, c))
  {
    hide Invariant, QueueOk, ChannelOk, OutboxOk, ViewOk, Flushed, ChangesAt, Requeued, Distinct;
    At(cfg, s, v, c);
    FlushedAt(v, c);
    var s' := Apply(cfg, s, Close(c));
    var v' := Flushed(v, c);
    ViewSizes(cfg, v);
    AllCounted(cfg, s.parent, s.stopping, v);
    NothingHandled(cfg, s.children[c], s.channels[c], s.stopping, s.queue, s.acked, s.parent.published, v, c);
    assert s.channels[c].unacked - s.channels[c].acks == {};
    assert Requeued({}) + s.queue == s.queue;
    hide ParentOk;
    ParentIgnoresPlaces(cfg, s.parent, s.stopping, v, v');
    AcksPlaced(s.children[c], s.channels[c], s.stopping, v, c);
    FlushQueue(cfg.jobs, s.queue, s.acked, s.channels[c].acks, s.parent.published, v, c);
    FlushChannel(s.children[c], s.channels[c], s.stopping, v, c);
    OutboxIgnoresPlaces(s.children[c].outbox, s.children[c].subscribed, v, v', c);
    Assemble(cfg, s, s', v, v', c);
  }

  lemma ViewSizes(cfg: Config, v: View)
    requires ViewOk(cfg, v)
    ensures |v.place| == |v.report| == cfg.jobs
  {
  }

  lemma NothingHandled(cfg: Config, child: Child, channel: Channel, stopping: bool, queue: seq<nat>, acked: set<nat>,
      published: bool, v: View, c: nat)
    requires ChannelOk(child, channel, stopping, v, c) && QueueOk(cfg.jobs, queue, acked, published, v) && ViewOk(cfg, v)
    requires forall id: nat :: id < cfg.jobs ==> v.Reported(id).Counted?
    ensures child.handling == {} && channel.unacked == channel.acks
  {
    forall id: nat ensures id !in child.handling {
      assert id in child.handling ==> v.At(id) == Handled(c) && id < cfg.jobs;
    }
  }

  lemma FlushedAt(v: View, c: nat)
    ensures forall id: nat :: Flushed(v, c).At(id) == if v.At(id) == AckSent(c) then Settled else v.At(id)
    ensures forall id: nat :: Flushed(v, c).Reported(id) == v.Reported(id)
    ensures ChangesAt(v, Flushed(v, c), c)
    ensures Flushed(v, c).greeted == v.greeted && |Flushed(v, c).place| == |v.place| && |Flushed(v, c).report| == |v.report|
  {
  }

  lemma AcksPlaced(child: Child, channel: Channel, stopping: bool, v: View, c: nat)
    requires ChannelOk(child, channel, stopping, v, c)
    ensures forall id: nat :: id in channel.acks <==> v.At(id) == AckSent(c)
  {
  }

  lemma FlushQueue(jobs: nat, queue: seq<nat>, acked: set<nat>, acks: set<nat>, published: bool, v: View, c: nat)
    requires QueueOk(jobs, queue, acked, published, v)
    requires forall id: nat :: id in acks <==> v.At(id) == AckSent(c)
    ensures QueueOk(jobs, queue, acked + acks, published, Flushed(v, c))
  {
    hide Flushed, View.At, View.Reported, Distinct, ChangesAt;
    FlushedAt(v, c);
  }

  lemma FlushChannel(child: Child, channel: Channel, stopping: bool, v: View, c: nat)
    requires ChannelOk(child, channel, stopping, v, c) && child.handling == {} && stopping
    ensures ChannelOk(child.(open := false, active := 0, handling := {}), Channel({}, {}), stopping, Flushed(v, c), c)
  {
    hide Flushed, View.At, View.Reported, ChangesAt;
    FlushedAt(v, c);
  }

  lemma StopOk(cfg: Config, s: State, v: View)
    requires Invariant(cfg, s, v) && Enabled(cfg, s, Stop)
    ensures Invariant(cfg, Apply(cfg, s, Stop), v)
  {
    hide OutboxOk, QueueOk;
    forall k: nat | k < cfg.consumers ensures ChannelOk(s.children[k], s.channels[k], true, v, k) {
      assert ChannelOk(s.children[k], s.channels[k], s.stopping, v, k);
    }
  }

  lemma StepOk(cfg: Config, s: State, v: View, e: Step) returns (v': View)
    requires Invariant(cfg, s, v) && Enabled(cfg, s, e)
    ensures Invariant(cfg, Apply(cfg, s, e), v')
  {
    hide Invariant, Apply, View.Moved, View.Told, Greeted, Flushed;
    match e
    case Subscribe(c) => SubscribeOk(cfg, s, v, c); v' := v;
    case Deliver(c) => DeliverOk(cfg, s, v, c); InRange(cfg, s, v); v' := v.Moved(s.queue[0], Handled(c));
    case Finish(c, id) => FinishOk(cfg, s, v, c, id); InRange(cfg, s, v); v' := v.Moved(id, AckSent(c)).Told(id, InTransit(c));
    case SettleAck(c, id) => SettleAckOk(cfg, s, v, c, id); InRange(cfg, s, v); v' := v.Moved(id, Settled);
    case Stop => v' := v; StopOk(cfg, s, v);
    case Close(c) => CloseOk(cfg, s, v, c); v' := Flushed(v, c);
    case Receive(c) =>
      InRange(cfg, s, v);
      match s.children[c].outbox[0]
      case Active(_) => ReceiveActiveOk(cfg, s, v, c); v' := v;
      case Ready => ReceiveReadyOk(cfg, s, v, c); v' := Greeted(cfg, v, c);
      case Done(id) => ReceiveDoneOk(cfg, s, v, c); v' := v.Told(id, Counted(c));
  }

  lemma InRange(cfg: Config, s: State, v: View)
    requires Invariant(cfg, s, v)
    ensures Shaped(cfg, s) && |v.place| == |v.report| == cfg.jobs
    ensures ViewOk(cfg, v) && QueueOk(cfg.jobs, s.queue, s.acked, s.parent.published, v) && ParentOk(cfg, s.parent, s.stopping, v)
  {
  }

  // ---- Whole runs ----

  ghost predicate IsRun(cfg: Config, s: State, run: seq<Step>)
    decreases |run|
  {
    run == [] || (Shaped(cfg, s) && Enabled(cfg, s, run[0]) && IsRun(cfg, Apply(cfg, s, run[0]), run[1..]))
  }

  ghost function After(cfg: Config, s: State, run: seq<Step>): State
    requires IsRun(cfg, s, run)
    decreases |run|
  {
    if run == [] then s else After(cfg, Apply(cfg, s, run[0]), run[1..])
  }

  lemma {:induction false} RunOk(cfg: Config, s: State, v: View, run: seq<Step>) returns (v': View)
    requires Invariant(cfg, s, v) && IsRun(cfg, s, run)
    ensures Invariant(cfg, After(cfg, s, run), v')
    decreases |run|
  {
    hide Invariant, Apply, Enabled;
    if run == [] {
      v' := v;
    } else {
      v' := StepOk(cfg, s, v, run[0]);
      v' := RunOk(cfg, Apply(cfg, s, run[0]), v', run[1..]);
    }
  }

  /** The consumers whose channel holds `id` unacknowledged. */
  ghost function Holders(channels: seq<Channel>, id: nat): set<nat> {
    set c: nat | c < |channels| && id in channels[c].unacked
  }

  /** In how many places a job is: the queue, unacknowledged at consumers, acknowledged. */
  ghost function Places(s: State, id: nat): nat {
    (if id in s.queue then 1 else 0) + |Holders(s.channels, id)| + (if id in s.acked then 1 else 0)
  }

  /** Once published, every job is in exactly one place, and once there; nothing else is anywhere. */
  ghost predicate Conserved(cfg: Config, s: State) {
    && Distinct(s.queue)
    && forall id: nat :: Places(s, id) == if s.parent.published && id < cfg.jobs then 1 else 0
  }

  /** A completion is reported, under way or counted, for exactly the jobs whose ack has been written; none twice. */
  ghost predicate ReportedOnce(cfg: Config, s: State)
    requires Shaped(cfg, s)
  {
    && (forall c, i, j :: 0 <= c < cfg.consumers && 0 <= i < j < |s.children[c].outbox| && s.children[c].outbox[i].Done? ==>
          s.children[c].outbox[i] != s.children[c].outbox[j])
    && (forall c, d, id: nat :: 0 <= c < d < cfg.consumers && Done(id) in s.children[c].outbox ==> Done(id) !in s.children[d].outbox)
    && (forall c, id: nat :: 0 <= c < cfg.consumers && Done(id) in s.children[c].outbox ==> id !in s.parent.seen)
    && (forall id: nat :: id in s.parent.seen || (exists c :: 0 <= c < cfg.consumers && Done(id) in s.children[c].outbox) <==>
          id in s.acked || exists c :: 0 <= c < cfg.consumers && id in s.channels[c].acks)
  }

  lemma InvariantConserves(cfg: Config, s: State, v: View)
    requires Invariant(cfg, s, v)
    ensures Shaped(cfg, s) && Conserved(cfg, s)
  {
    hide Invariant, QueueOk, ChannelOk, OutboxOk, ParentOk, ViewOk, Places;
    InRange(cfg, s, v);
    QueueIsDistinct(cfg.jobs, s.queue, s.acked, s.parent.published, v);
    forall id: nat ensures Places(s, id) == if s.parent.published && id < cfg.jobs then 1 else 0 {
      OnePlace(cfg, s, v, id);
    }
  }

  lemma OnePlace(cfg: Config, s: State, v: View, id: nat)
    requires Invariant(cfg, s, v)
    ensures Places(s, id) == if s.parent.published && id < cfg.jobs then 1 else 0
  {
    hide Invariant, OutboxOk, ParentOk, QueueOk, ViewOk, Distinct;
    InRange(cfg, s, v);
    var p := v.At(id);
    HolderExists(cfg, v, id);
    forall c: nat ensures c in Holders(s.channels, id) <==> p == Handled(c) || p == AckSent(c) {
      if c < cfg.consumers {
        At(cfg, s, v, c);
      }
    }
    hide ChannelOk;
    PlacedByQueue(cfg.jobs, s.queue, s.acked, s.parent.published, v, id);
    assert Holders(s.channels, id) == if p.Handled? || p.AckSent? then {p.c} else {};
    if id >= cfg.jobs {
      OutOfRange(cfg, v, id);
    }
  }

  lemma QueueIsDistinct(jobs: nat, queue: seq<nat>, acked: set<nat>, published: bool, v: View)
    requires QueueOk(jobs, queue, acked, published, v)
    ensures Distinct(queue)
  {
  }

  lemma PlacedByQueue(jobs: nat, queue: seq<nat>, acked: set<nat>, published: bool, v: View, id: nat)
    requires QueueOk(jobs, queue, acked, published, v)
    ensures (id in queue <==> v.At(id) == Queued) && (id in acked <==> v.At(id) == Settled)
    ensures id < jobs ==> (v.At(id) == Unpublished <==> !published)
  {
  }

  lemma HolderExists(cfg: Config, v: View, id: nat)
    requires ViewOk(cfg, v)
    ensures v.At(id).Handled? || v.At(id).AckSent? ==> v.At(id).c < cfg.consumers
  {
  }

  lemma OutOfRange(cfg: Config, v: View, id: nat)
    requires |v.place| == |v.report| == cfg.jobs && id >= cfg.jobs
    ensures v.At(id) == Unpublished && v.Reported(id) == Unsent
  {
  }

  lemma InvariantReportsOnce(cfg: Config, s: State, v: View)
    requires Invariant(cfg, s, v)
    ensures Shaped(cfg, s) && ReportedOnce(cfg, s)
  {
    hide View.At, View.Reported;
    forall c: nat | c < cfg.consumers
      ensures forall id: nat :: id in s.channels[c].acks <==> v.At(id) == AckSent(c)
      ensures forall id: nat :: Done(id) in s.children[c].outbox <==> v.Reported(id) == InTransit(c)
      ensures forall i, j :: 0 <= i < j < |s.children[c].outbox| && s.children[c].outbox[i].Done? ==>
        s.children[c].outbox[i] != s.children[c].outbox[j]
    {
      assert ChannelOk(s.children[c], s.channels[c], s.stopping, v, c);
      assert OutboxOk(s.children[c].outbox, s.children[c].subscribed, v, c);
    }
    hide ChannelOk, OutboxOk;
    forall id: nat
      ensures id in s.parent.seen || (exists c :: 0 <= c < cfg.consumers && Done(id) in s.children[c].outbox) <==> v.Reported(id) != Unsent
    {
      if v.Reported(id).InTransit? {
        assert Done(id) in s.children[v.Reported(id).c].outbox;
      }
    }
    forall id: nat
      ensures id in s.acked || (exists c :: 0 <= c < cfg.consumers && id in s.channels[c].acks) <==> v.At(id).AckSent? || v.At(id).Settled?
    {
      if v.At(id).AckSent? {
        assert id in s.channels[v.At(id).c].acks;
      }
    }
  }

  // ---- Who does the work ----

  ghost function Deliveries(run: seq<Step>, c: nat): nat {
    if run == [] then 0 else (if run[0] == Deliver(c) then 1 else 0) + Deliveries(run[1..], c)
  }

  function Dones(out: seq<Message>): nat {
    if out == [] then 0 else (if out[0].Done? then 1 else 0) + Dones(out[1..])
  }

  lemma {:induction false} DonesAppend(out: seq<Message>, m: Message)
    ensures Dones(out + [m]) == Dones(out) + if m.Done? then 1 else 0
  {
    if out == [] {
      assert out + [m] == [m];
    } else {
      assert (out + [m])[1..] == out[1..] + [m];
      DonesAppend(out[1..], m);
    }
  }

  lemma {:induction false} NoDones(out: seq<Message>)
    requires forall i :: 0 <= i < |out| ==> !out[i].Done?
    ensures Dones(out) == 0
  {
    if out != [] {
      NoDones(out[1..]);
    }
  }

  /** The jobs consumer `c` has taken: in its handler, reported but not yet heard of, and counted. */
  ghost function Taken(cfg: Config, s: State, c: nat): nat
    requires Shaped(cfg, s) && c < cfg.consumers
  {
    |s.children[c].handling| + Dones(s.children[c].outbox) + s.parent.counts[c]
  }

  lemma QueuedIsNotHandled(cfg: Config, s: State, v: View, c: nat)
    requires Invariant(cfg, s, v) && c < cfg.consumers && s.queue != []
    ensures s.queue[0] !in s.children[c].handling
  {
    assert ChannelOk(s.children[c], s.channels[c], s.stopping, v, c);
    assert s.queue[0] in s.queue;
  }

  lemma NeverFails(cfg: Config, s: State, v: View)
    requires Invariant(cfg, s, v)
    ensures Shaped(cfg, s) && !s.parent.failed
  {
  }

  lemma DeliverTakes(cfg: Config, s: State, d: nat, c: nat)
    requires Shaped(cfg, s) && Enabled(cfg, s, Deliver(d)) && s.queue[0] !in s.children[d].handling && c < cfg.consumers
    ensures Taken(cfg, Apply(cfg, s, Deliver(d)), c) == Taken(cfg, s, c) + if d == c then 1 else 0
  {
    hide Dones;
    DonesAppend(s.children[d].outbox, Active(s.children[d].active + 1));
  }

  lemma FinishTakes(cfg: Config, s: State, d: nat, id: nat, c: nat)
    requires Shaped(cfg, s) && Enabled(cfg, s, Finish(d, id)) && c < cfg.consumers
    ensures Taken(cfg, Apply(cfg, s, Finish(d, id)), c) == Taken(cfg, s, c)
  {
    hide Dones;
    DonesAppend(s.children[d].outbox, Done(id));
  }

  lemma ReceiveTakes(cfg: Config, s: State, d: nat, c: nat)
    requires Shaped(cfg, s) && Enabled(cfg, s, Receive(d)) && !Apply(cfg, s, Receive(d)).parent.failed && c < cfg.consumers
    ensures Taken(cfg, Apply(cfg, s, Receive(d)), c) == Taken(cfg, s, c)
  {
    hide Dones, AllJobs;
    DonesFirst(s.children[d].outbox);
  }

  lemma OtherStepTakes(cfg: Config, s: State, e: Step, c: nat)
    requires Shaped(cfg, s) && Enabled(cfg, s, e) && c < cfg.consumers
    requires e.Subscribe? || e.SettleAck? || e.Stop? || (e.Close? && s.children[e.c].handling == {})
    ensures Taken(cfg, Apply(cfg, s, e), c) == Taken(cfg, s, c)
  {
    hide Dones, Requeued;
    if e.Subscribe? { DonesAppend(s.children[e.c].outbox, Ready); }
  }

  lemma StepShaped(cfg: Config, s: State, e: Step)
    requires Shaped(cfg, s) && Enabled(cfg, s, e)
    ensures Shaped(cfg, Apply(cfg, s, e))
  {
    hide AllJobs, Requeued;
  }

  /** Only a delivery to `c` adds to what `c` has taken, and nothing takes away from it. */
  lemma StepTakes(cfg: Config, s: State, v: View, e: Step, c: nat)
    requires Invariant(cfg, s, v) && Enabled(cfg, s, e) && c < cfg.consumers
    ensures Shaped(cfg, Apply(cfg, s, e))
    ensures Taken(cfg, Apply(cfg, s, e), c) == Taken(cfg, s, c) + if e == Deliver(c) then 1 else 0
  {
    hide Invariant, Apply, Taken;
    NeverFails(cfg, s, v);
    StepShaped(cfg, s, e);
    match e
    case Deliver(d) =>
      QueuedIsNotHandled(cfg, s, v, d);
      DeliverTakes(cfg, s, d, c);
    case Finish(d, id) => FinishTakes(cfg, s, d, id, c);
    case Receive(d) =>
      var v' := StepOk(cfg, s, v, e);
      NeverFails(cfg, Apply(cfg, s, e), v');
      ReceiveTakes(cfg, s, d, c);
    case Close(d) =>
      CloseOk(cfg, s, v, d);
      OtherStepTakes(cfg, s, e, c);
    case _ => OtherStepTakes(cfg, s, e, c);
  }

  lemma DonesFirst(out: seq<Message>)
    requires out != []
    ensures Dones(out) == Dones(out[1..]) + if out[0].Done? then 1 else 0
  {
  }

  lemma {:induction false} RunTakes(cfg: Config, s: State, v: View, run: seq<Step>, c: nat)
    requires Invariant(cfg, s, v) && IsRun(cfg, s, run) && c < cfg.consumers
    ensures Shaped(cfg, s) && Shaped(cfg, After(cfg, s, run))
    ensures Taken(cfg, After(cfg, s, run), c) == Taken(cfg, s, c) + Deliveries(run, c)
    decreases |run|
  {
    hide Invariant, Apply, Enabled, Taken;
    NeverFails(cfg, s, v);
    if run != [] {
      var v' := StepOk(cfg, s, v, run[0]);
      StepTakes(cfg, s, v, run[0], c);
      RunTakes(cfg, Apply(cfg, s, run[0]), v', run[1..], c);
    }
  }

  /** Once all reports are in, whatever a consumer has taken has been counted. */
  lemma TakenIsCounted(cfg: Config, s: State, v: View, c: nat)
    requires Invariant(cfg, s, v) && s.parent.resolved && c < cfg.consumers
    ensures Taken(cfg, s, c) == s.parent.counts[c]
  {
    hide View.At, View.Reported;
    InRange(cfg, s, v);
    AllCounted(cfg, s.parent, s.stopping, v);
    assert ChannelOk(s.children[c], s.channels[c], s.stopping, v, c);
    assert OutboxOk(s.children[c].outbox, s.children[c].subscribed, v, c);
    forall id: nat ensures !v.At(id).Handled? && !v.Reported(id).InTransit? {
      if id >= cfg.jobs { OutOfRange(cfg, v, id); }
    }
    assert s.children[c].handling == {};
    var out := s.children[c].outbox;
    assert forall i :: 0 <= i < |out| && out[i].Done? ==> out[i] in out;
    NoDones(out);
  }

  /** When the parent has heard of every job, its count for a consumer is the number of deliveries to it. */
  lemma DeliveriesAreCounted(cfg: Config, run: seq<Step>)
    requires IsRun(cfg, Init(cfg), run)
    ensures
      var s := After(cfg, Init(cfg), run);
      && Shaped(cfg, s)
      && (s.parent.resolved ==> forall c: nat :: c < cfg.consumers ==> s.parent.counts[c] == Deliveries(run, c))
  {
    InitOk(cfg);
    var v0 := View(seq(cfg.jobs, _ => Unpublished), seq(cfg.jobs, _ => Unsent), {});
    var v := RunOk(cfg, Init(cfg), v0, run);
    var s := After(cfg, Init(cfg), run);
    NeverFails(cfg, s, v);
    forall c: nat | c < cfg.consumers && s.parent.resolved ensures s.parent.counts[c] == Deliveries(run, c) {
      RunTakes(cfg, Init(cfg), v0, run, c);
      TakenIsCounted(cfg, s, v, c);
    }
  }

  lemma {:induction false} DeliveredIff(run: seq<Step>, c: nat)
    ensures Deliveries(run, c) > 0 <==> Deliver(c) in run
  {
    if run != [] {
      assert run == [run[0]] + run[1..];
      DeliveredIff(run[1..], c);
    }
  }

  /** The assertion that every consumer's count is positive holds exactly when each was delivered a job. */
  lemma AllWorkIffAllDelivered(cfg: Config, run: seq<Step>)
    requires IsRun(cfg, Init(cfg), run) && After(cfg, Init(cfg), run).parent.resolved
    ensures
      var counts := After(cfg, Init(cfg), run).parent.counts;
      && |counts| == cfg.consumers
      && ((forall c: nat :: c < cfg.consumers ==> counts[c] > 0) <==> forall c: nat :: c < cfg.consumers ==> Deliver(c) in run)
  {
    DeliveriesAreCounted(cfg, run);
    hide After, IsRun, Init, Deliveries;
    forall c: nat ensures Deliveries(run, c) > 0 <==> Deliver(c) in run {
      DeliveredIff(run, c);
    }
  }

  /**
   * Every interleaving of any number of jobs and consumers: no assertion on a message ever fails,
   * a consumer has at most one job active, jobs are conserved, completions are reported once, the
   * parent's final counts are the numbers of deliveries to each consumer, and once all consumers have closed the queue is empty and every job acknowledged.
   */
  lemma EveryRunIsSafe(cfg: Config, run: seq<Step>)
    requires IsRun(cfg, Init(cfg), run)
    ensures
      var s := After(cfg, Init(cfg), run);
      && Shaped(cfg, s) && !s.parent.failed
      && (forall c :: 0 <= c < cfg.consumers ==> 0 <= s.children[c].active <= 1 && |s.channels[c].unacked| <= 1)
      && Conserved(cfg, s) && ReportedOnce(cfg, s)
      && (s.parent.resolved ==> forall id: nat :: id < cfg.jobs ==> id in s.parent.seen)
      && (s.parent.resolved ==> forall c: nat :: c < cfg.consumers ==> s.parent.counts[c] == Deliveries(run, c))
      && (cfg.consumers > 0 && (forall c :: 0 <= c < cfg.consumers ==> !s.children[c].open) ==>
            s.queue == [] && forall id: nat :: id < cfg.jobs ==> id in s.acked)
  {
    InitOk(cfg);
    var v := RunOk(cfg, Init(cfg), View(seq(cfg.jobs, _ => Unpublished), seq(cfg.jobs, _ => Unsent), {}), run);
    var s := After(cfg, Init(cfg), run);
    hide After, IsRun, Init;
    InvariantConserves(cfg, s, v);
    InvariantReportsOnce(cfg, s, v);
    DeliveriesAreCounted(cfg, run);
    forall c: nat | c < cfg.consumers ensures 0 <= s.children[c].active <= 1 && |s.channels[c].unacked| <= PREFETCH {
      OneAtATime(s.children[c], s.channels[c], s.stopping, v, c);
    }
    if s.parent.resolved {
      AllCounted(cfg, s.parent, s.stopping, v);
    }
    if cfg.consumers > 0 && (forall c :: 0 <= c < cfg.consumers ==> !s.children[c].open) {
      ClosedMeansDrained(cfg, s, v);
    }
  }

  lemma OneAtATime(child: Child, channel: Channel, stopping: bool, v: View, c: nat)
    requires ChannelOk(child, channel, stopping, v, c)
    ensures 0 <= child.active <= 1 && |channel.unacked| <= PREFETCH
  {
    SubsetSize(child.handling, channel.unacked);
  }

  lemma ClosedMeansDrained(cfg: Config, s: State, v: View)
    requires Invariant(cfg, s, v) && cfg.consumers > 0 && forall c :: 0 <= c < cfg.consumers ==> !s.children[c].open
    ensures s.queue == [] && forall id: nat :: id < cfg.jobs ==> id in s.acked
  {
    hide View.At, View.Reported;
    forall c: nat | c < cfg.consumers ensures s.stopping && forall id: nat :: v.At(id) != AckSent(c) {
      assert ChannelOk(s.children[c], s.channels[c], s.stopping, v, c);
    }
    assert ChannelOk(s.children[0], s.channels[0], s.stopping, v, 0);
    hide ChannelOk, OutboxOk;
    AllCounted(cfg, s.parent, s.stopping, v);
    forall id: nat | id < cfg.jobs ensures v.At(id) == Settled {
      assert v.Reported(id).Counted?;
    }
    forall id: nat ensures id !in s.queue {
      if id >= cfg.jobs { OutOfRange(cfg, v, id); }
    }
    HeadIsMember(s.queue);
  }

  // ---- No deadlock ----

  /** Until every consumer has closed, some step can be taken. */
  lemma NoDeadlock(cfg: Config, s: State, v: View) returns (e: Step)
    requires Invariant(cfg, s, v) && cfg.consumers > 0 && cfg.jobs > 0
    requires exists c :: 0 <= c < cfg.consumers && s.children[c].open
    ensures Enabled(cfg, s, e)
  {
    hide Invariant, ChannelOk, OutboxOk, QueueOk, ParentOk, ViewOk;
    InRange(cfg, s, v);
    if c: nat :| c < cfg.consumers && !s.children[c].subscribed {
      return Subscribe(c);
    }
    if c: nat :| c < cfg.consumers && s.children[c].outbox != [] {
      return Receive(c);
    }
    if s.stopping {
      var c: nat :| c < cfg.consumers && s.children[c].open;
      return Close(c);
    }
    if s.parent.resolved {
      return Stop;
    }
    IdleMeansQueued(cfg, s, v);
    if c: nat, id :| c < cfg.consumers && id in s.children[c].handling {
      At(cfg, s, v, c);
      HandlingIsOpen(s.children[c], s.channels[c], s.stopping, v, c, id);
      return Finish(c, id);
    }
    At(cfg, s, v, 0);
    e := AckOrDeliver(cfg, s, v);
  }

  lemma AckOrDeliver(cfg: Config, s: State, v: View) returns (e: Step)
    requires Shaped(cfg, s) && cfg.consumers > 0 && ChannelOk(s.children[0], s.channels[0], s.stopping, v, 0)
    requires s.children[0].subscribed && !s.stopping && s.children[0].handling == {} && s.queue != []
    ensures Enabled(cfg, s, e)
  {
    if id :| id in s.channels[0].acks {
      return SettleAck(0, id);
    }
    assert s.channels[0].unacked == {};
    return Deliver(0);
  }

  lemma HandlingIsOpen(child: Child, channel: Channel, stopping: bool, v: View, c: nat, id: nat)
    requires ChannelOk(child, channel, stopping, v, c) && id in child.handling
    ensures child.open
  {
  }

  /** With all messages read and the jobs not all seen, a job is queued or in a handler. */
  lemma IdleMeansQueued(cfg: Config, s: State, v: View)
    requires Invariant(cfg, s, v) && cfg.consumers > 0 && cfg.jobs > 0 && !s.parent.resolved
    requires forall c: nat :: c < cfg.consumers ==> s.children[c].subscribed && s.children[c].outbox == []
    ensures s.queue != [] || exists c: nat, id :: c < cfg.consumers && id in s.children[c].handling
  {
    hide View.At, View.Reported;
    forall c: nat | c < cfg.consumers ensures c in v.greeted && forall id: nat :: v.Reported(id) != InTransit(c) {
      assert OutboxOk(s.children[c].outbox, s.children[c].subscribed, v, c);
      assert forall id: nat :: Done(id) !in s.children[c].outbox;
    }
    assert v.greeted == Upto(cfg.consumers);
    var id := SomeUnseen(cfg, s.parent, s.stopping, v);
    if v.At(id).Handled? {
      assert ChannelOk(s.children[v.At(id).c], s.channels[v.At(id).c], s.stopping, v, v.At(id).c);
      assert id in s.children[v.At(id).c].handling;
    } else {
      assert v.At(id) == Queued && id in s.queue;
    }
  }

  lemma SomeUnseen(cfg: Config, parent: Parent, stopping: bool, v: View) returns (id: nat)
    requires ParentOk(cfg, parent, stopping, v) && cfg.jobs > 0 && !parent.resolved
    requires |v.report| == cfg.jobs
    ensures id < cfg.jobs && !v.Reported(id).Counted?
  {
    hide View.Reported;
    if forall i: nat :: i < cfg.jobs ==> i in parent.seen {
      assert Upto(cfg.jobs) <= parent.seen;
      SubsetSize(Upto(cfg.jobs), parent.seen);
      AllCounted(cfg, parent, stopping, v);
      assert false;
    }
    id :| id < cfg.jobs && id !in parent.seen;
  }

  /** No run is stuck before every consumer has closed. */
  lemma EveryRunCanGoOn(cfg: Config, run: seq<Step>) returns (e: Step)
    requires IsRun(cfg, Init(cfg), run) && cfg.consumers > 0 && cfg.jobs > 0
    requires Shaped(cfg, After(cfg, Init(cfg), run))
    requires exists c :: 0 <= c < cfg.consumers && After(cfg, Init(cfg), run).children[c].open
    ensures Enabled(cfg, After(cfg, Init(cfg), run), e)
  {
    InitOk(cfg);
    var v := RunOk(cfg, Init(cfg), View(seq(cfg.jobs, _ => Unpublished), seq(cfg.jobs, _ => Unsent), {}), run);
    hide After, IsRun, Init, Invariant;
    e := NoDeadlock(cfg, After(cfg, Init(cfg), run), v);
  }

  // ---- Every run ends ----

  /** Steps a consumer still owes for itself, its messages under way, its jobs and its acks. */
  function OwedBy(child: Child, channel: Channel): nat {
    (if child.subscribed then 0 else 2) + (if child.open then 1 else 0)
    + |child.outbox| + 3 * |child.handling| + |channel.acks|
  }

  function OwedUpTo(children: seq<Child>, channels: seq<Channel>, n: nat): nat
    requires n <= |children| && n <= |channels|
  {
    if n == 0 then 0 else OwedUpTo(children, channels, n - 1) + OwedBy(children[n - 1], channels[n - 1])
  }

  /** A bound on the steps still to come. */
  ghost function Owed(cfg: Config, s: State): nat
    requires Shaped(cfg, s)
  {
    OwedUpTo(s.children, s.channels, cfg.consumers) + 5 * |s.queue|
    + (if s.parent.published then 0 else 5 * cfg.jobs) + (if s.stopping then 0 else 1)
  }

  lemma {:induction false} OneOwes(children: seq<Child>, channels: seq<Channel>, c: nat, child: Child, channel: Channel, n: nat)
    requires c < |children| && n <= |children| == |channels|
    ensures OwedUpTo(children[c := child], channels[c := channel], n) + (if c < n then OwedBy(children[c], channels[c]) else 0)
         == OwedUpTo(children, channels, n) + if c < n then OwedBy(child, channel) else 0
  {
    hide OwedBy;
    if n > 0 {
      OneOwes(children, channels, c, child, channel, n - 1);
    }
  }

  lemma OwesElsewhere(cfg: Config, s: State, s': State, c: nat)
    requires Shaped(cfg, s) && Shaped(cfg, s') && c < cfg.consumers
    requires s'.children == s.children[c := s'.children[c]] && s'.channels == s.channels[c := s'.channels[c]]
    ensures OwedUpTo(s'.children, s'.channels, cfg.consumers) + OwedBy(s.children[c], s.channels[c])
         == OwedUpTo(s.children, s.channels, cfg.consumers) + OwedBy(s'.children[c], s'.channels[c])
  {
    hide OwedBy;
    OneOwes(s.children, s.channels, c, s'.children[c], s'.channels[c], cfg.consumers);
  }

  lemma ConsumerStepPays(cfg: Config, s: State, e: Step)
    requires Shaped(cfg, s) && Enabled(cfg, s, e) && (e.Subscribe? || e.Deliver? || e.Finish? || e.SettleAck?)
    ensures Shaped(cfg, Apply(cfg, s, e)) && Owed(cfg, Apply(cfg, s, e)) < Owed(cfg, s)
  {
    hide AllJobs, Requeued, OwedUpTo;
    OwesElsewhere(cfg, s, Apply(cfg, s, e), e.c);
  }

  lemma ReceivePays(cfg: Config, s: State, c: nat)
    requires Shaped(cfg, s) && Enabled(cfg, s, Receive(c))
    ensures Shaped(cfg, Apply(cfg, s, Receive(c))) && Owed(cfg, Apply(cfg, s, Receive(c))) < Owed(cfg, s)
  {
    hide OwedUpTo, AllJobs;
    var s' := Apply(cfg, s, Receive(c));
    assert s'.channels == s.channels[c := s'.channels[c]];
    OwesElsewhere(cfg, s, s', c);
  }

  lemma ClosePays(cfg: Config, s: State, c: nat)
    requires Shaped(cfg, s) && Enabled(cfg, s, Close(c)) && s.channels[c].unacked == s.channels[c].acks
    ensures Shaped(cfg, Apply(cfg, s, Close(c))) && Owed(cfg, Apply(cfg, s, Close(c))) < Owed(cfg, s)
  {
    hide OwedUpTo, Requeued;
    assert s.channels[c].unacked - s.channels[c].acks == {};
    OwesElsewhere(cfg, s, Apply(cfg, s, Close(c)), c);
  }

  lemma StepPays(cfg: Config, s: State, v: View, e: Step)
    requires Invariant(cfg, s, v) && Enabled(cfg, s, e)
    ensures Shaped(cfg, s) && Shaped(cfg, Apply(cfg, s, e)) && Owed(cfg, Apply(cfg, s, e)) < Owed(cfg, s)
  {
    hide Invariant, OwedUpTo, AllJobs, Requeued;
    NeverFails(cfg, s, v);
    match e
    case Receive(c) => ReceivePays(cfg, s, c);
    case Close(c) =>
      CloseOk(cfg, s, v, c);
      ClosePays(cfg, s, c);
    case Stop =>
    case _ => ConsumerStepPays(cfg, s, e);
  }

  lemma {:induction false} RunPays(cfg: Config, s: State, v: View, run: seq<Step>)
    requires Invariant(cfg, s, v) && IsRun(cfg, s, run)
    ensures Shaped(cfg, s) && |run| <= Owed(cfg, s)
    decreases |run|
  {
    hide Invariant, Apply, Enabled, Owed;
    NeverFails(cfg, s, v);
    if run != [] {
      var v' := StepOk(cfg, s, v, run[0]);
      StepPays(cfg, s, v, run[0]);
      RunPays(cfg, Apply(cfg, s, run[0]), v', run[1..]);
    }
  }

  lemma {:induction false} OwedAtStart(n: nat, k: nat)
    requires k <= n
    ensures OwedUpTo(seq(n, _ => Child(false, true, 0, {}, [])), seq(n, _ => Channel({}, {})), k) == 3 * k
  {
    if k > 0 { OwedAtStart(n, k - 1); }
  }

  /** No run goes on for ever: three steps for each consumer, five for each job, and one to stop. */
  lemma EveryRunEnds(cfg: Config, run: seq<Step>)
    requires IsRun(cfg, Init(cfg), run)
    ensures |run| <= 3 * cfg.consumers + 5 * cfg.jobs + 1
  {
    InitOk(cfg);
    OwedAtStart(cfg.consumers, cfg.consumers);
    RunPays(cfg, Init(cfg), View(seq(cfg.jobs, _ => Unpublished), seq(cfg.jobs, _ => Unsent), {}), run);
  }

  /** A run that cannot be continued has closed every consumer, and left every job seen and acknowledged. */
  lemma MaximalRunDrains(cfg: Config, run: seq<Step>)
    requires IsRun(cfg, Init(cfg), run) && cfg.consumers > 0 && cfg.jobs > 0
    requires Shaped(cfg, After(cfg, Init(cfg), run)) && forall e :: !Enabled(cfg, After(cfg, Init(cfg), run), e)
    ensures
      var s := After(cfg, Init(cfg), run);
      && (forall c :: 0 <= c < cfg.consumers ==> !s.children[c].open)
      && s.parent.resolved && s.queue == []
      && forall id: nat :: id < cfg.jobs ==> id in s.acked && id in s.parent.seen
  {
    EveryRunIsSafe(cfg, run);
    InitOk(cfg);
    var v := RunOk(cfg, Init(cfg), View(seq(cfg.jobs, _ => Unpublished), seq(cfg.jobs, _ => Unsent), {}), run);
    var s := After(cfg, Init(cfg), run);
    if exists c :: 0 <= c < cfg.consumers && s.children[c].open {
      var e := EveryRunCanGoOn(cfg, run);
      assert false;
    }
    ClosedMeansResolved(cfg, s, v);
  }

  lemma ClosedMeansResolved(cfg: Config, s: State, v: View)
    requires Invariant(cfg, s, v) && cfg.consumers > 0 && !s.children[0].open
    ensures s.parent.resolved
  {
    assert ChannelOk(s.children[0], s.channels[0], s.stopping, v, 0);
  }

  // ---- What the protocol does not promise: that both consumers get work ----

  /** Two idle consumers, all jobs published, the first `k` done by consumer 0. */
  ghost function DoneByFirst(jobs: nat, k: nat): State
    requires k <= jobs
  {
    State(Parent(2, true, Upto(k), [k, 0], k == jobs > 0, false), [IDLE, IDLE], [NONE, NONE],
      AllJobs(jobs)[k..], Upto(k), false)
  }

  const IDLE := Child(true, true, 0, {}, [])
  const NONE := Channel({}, {})

  lemma OneJob(k: nat)
    ensures OnDelivery(IDLE, k) == Child(true, true, 1, {k}, [Active(1)])
    ensures OnTimer(Child(true, true, 1, {k}, []), k) == Child(true, true, 0, {}, [Done(k)])
    ensures NONE.(unacked := NONE.unacked + {k}) == Channel({k}, {})
    ensures Channel({k}, {}).(acks := Channel({k}, {}).acks + {k}) == Channel({k}, {k})
    ensures Channel({k} - {k}, {k} - {k}) == NONE
  {
    var e: seq<Message> := [];
    assert e + [Active(1)] == [Active(1)] && e + [Done(k)] == [Done(k)];
    var none: set<nat> := {};
    assert none + {k} == {k} && {k} - {k} == none;
  }

  /** Consumer 0 takes and completes one more job while consumer 1 gets none. */
  lemma FirstTakesNext(jobs: nat, k: nat)
    requires k < jobs
    ensures
      var cfg := Config(jobs, 2);
      var s1 := Apply(cfg, DoneByFirst(jobs, k), Deliver(0));
      && Shaped(cfg, s1) && Enabled(cfg, s1, Receive(0))
      && var s2 := Apply(cfg, s1, Receive(0));
      && Shaped(cfg, s2) && Enabled(cfg, s2, Finish(0, k))
      && var s3 := Apply(cfg, s2, Finish(0, k));
      && Shaped(cfg, s3) && Enabled(cfg, s3, SettleAck(0, k))
      && var s4 := Apply(cfg, s3, SettleAck(0, k));
      && Shaped(cfg, s4) && Enabled(cfg, s4, Receive(0))
      && Apply(cfg, s4, Receive(0)) == DoneByFirst(jobs, k + 1)
  {
    hide Upto, AllJobs, OnDelivery, OnTimer;
    var cfg := Config(jobs, 2);
    OneJob(k);
    assert AllJobs(jobs)[k..][1..] == AllJobs(jobs)[k + 1..] && AllJobs(jobs)[k..][0] == k;
    assert Upto(k + 1) == Upto(k) + {k};
    var p := DoneByFirst(jobs, k).parent;
    var s1 := Apply(cfg, DoneByFirst(jobs, k), Deliver(0));
    assert s1.children == [OnDelivery(IDLE, k), IDLE] && s1.channels == [Channel({k}, {}), NONE] && s1.parent == p;
    var s2 := Apply(cfg, s1, Receive(0));
    assert [Active(1)][1..] == [];
    assert s2.children == [Child(true, true, 1, {k}, []), IDLE] && s2.parent == p && s2.queue == s1.queue;
    var s3 := Apply(cfg, s2, Finish(0, k));
    assert s3.children == [Child(true, true, 0, {}, [Done(k)]), IDLE] && s3.channels == [Channel({k}, {k}), NONE];
    var s4 := Apply(cfg, s3, SettleAck(0, k));
    assert s4.children == s3.children && s4.channels == [NONE, NONE] && s4.acked == Upto(k + 1);
    var s5 := Apply(cfg, s4, Receive(0));
    assert [Done(k)][1..] == [];
    assert s5.children == [IDLE, IDLE];
    assert [k, 0][0 := k + 1] == [k + 1, 0];
    assert s5.parent == DoneByFirst(jobs, k + 1).parent;
  }

  /** From there consumer 0 can take all the remaining jobs. */
  lemma {:induction false} FirstTakesAll(jobs: nat, k: nat) returns (run: seq<Step>)
    requires 0 < jobs && k <= jobs
    ensures IsRun(Config(jobs, 2), DoneByFirst(jobs, k), run)
    ensures After(Config(jobs, 2), DoneByFirst(jobs, k), run) == DoneByFirst(jobs, jobs)
    decreases jobs - k
  {
    if k == jobs {
      run := [];
    } else {
      FirstTakesNext(jobs, k);
      var rest := FirstTakesAll(jobs, k + 1);
      run := Prepend(jobs, k, rest);
    }
  }

  lemma Prepend(jobs: nat, k: nat, rest: seq<Step>) returns (run: seq<Step>)
    requires k < jobs && IsRun(Config(jobs, 2), DoneByFirst(jobs, k + 1), rest)
    ensures IsRun(Config(jobs, 2), DoneByFirst(jobs, k), run)
    ensures After(Config(jobs, 2), DoneByFirst(jobs, k), run) == After(Config(jobs, 2), DoneByFirst(jobs, k + 1), rest)
  {
    FirstTakesNext(jobs, k);
    var cfg := Config(jobs, 2);
    var s0 := DoneByFirst(jobs, k);
    var s1 := Apply(cfg, s0, Deliver(0));
    var s2 := Apply(cfg, s1, Receive(0));
    var s3 := Apply(cfg, s2, Finish(0, k));
    var s4 := Apply(cfg, s3, SettleAck(0, k));
    hide Apply, DoneByFirst, Enabled, Shaped;
    var r4 := OneMore(cfg, s4, Receive(0), rest);
    var r3 := OneMore(cfg, s3, SettleAck(0, k), r4);
    var r2 := OneMore(cfg, s2, Finish(0, k), r3);
    var r1 := OneMore(cfg, s1, Receive(0), r2);
    run := OneMore(cfg, s0, Deliver(0), r1);
  }

  lemma OneMore(cfg: Config, s: State, e: Step, rest: seq<Step>) returns (run: seq<Step>)
    requires Shaped(cfg, s) && Enabled(cfg, s, e) && IsRun(cfg, Apply(cfg, s, e), rest)
    ensures IsRun(cfg, s, run) && After(cfg, s, run) == After(cfg, Apply(cfg, s, e), rest)
  {
    run := [e] + rest;
    assert run[1..] == rest;
  }

  /**
   * The script's last assertion, that every consumer's count is positive, can fail with the
   * protocol working: for any number of jobs some run gives them all to one of two consumers.
   */
  lemma OneConsumerMayDoEverything(jobs: nat) returns (run: seq<Step>)
    requires jobs > 0
    ensures
      var cfg := Config(jobs, 2);
      && IsRun(cfg, Init(cfg), run)
      && var s := After(cfg, Init(cfg), run);
      s.parent.resolved && s.parent.counts == [jobs, 0]
  {
    var cfg := Config(jobs, 2);
    hide AllJobs;
    var newborn := Child(false, true, 0, {}, []);
    var ready := Child(true, true, 0, {}, [Ready]);
    var e: seq<Message> := [];
    assert e + [Ready] == [Ready] && [Ready][1..] == e;
    var s1 := Apply(cfg, Init(cfg), Subscribe(0));
    assert s1.children == [ready, newborn];
    var s2 := Apply(cfg, s1, Receive(0));
    assert s2.children == [IDLE, newborn];
    var s3 := Apply(cfg, s2, Subscribe(1));
    assert s3.children == [IDLE, ready];
    var s4 := Apply(cfg, s3, Receive(1));
    assert s4.children == [IDLE, IDLE] && s4.channels == [NONE, NONE];
    assert seq(2, _ => 0) == [0, 0];
    assert s3.queue + AllJobs(jobs) == AllJobs(jobs) == AllJobs(jobs)[0..];
    assert s4 == DoneByFirst(jobs, 0);
    var rest := FirstTakesAll(jobs, 0);
    var r3 := OneMore(cfg, s3, Receive(1), rest);
    var r2 := OneMore(cfg, s2, Subscribe(1), r3);
    var r1 := OneMore(cfg, s1, Receive(0), r2);
    run := OneMore(cfg, Init(cfg), Subscribe(0), r1);
  }
}
