/**
 * The driver that owns a session, and the discipline with which it replaces the transport. The
 * session is seen through what it produces: octets to transmit and events to act upon.
 */
module Drivers {
  import opened Octets
  import opened Frames
  import T = Tables

  /** A start the peer asks for: the number it wants, and the profiles it offers in order of preference. */
  datatype Ask = Ask(channel: U32, profiles: seq<string>)

  /** What serves a profile: whether it accepts a start, and whether accepting replaces the transport. */
  datatype Handler = Handler(accepts: Ask -> bool, upgrades: bool)

  type Router = map<string, Handler>

  /** What the session reports, and the octets it produces when the driver answers. */
  datatype Event =
    | StartRequested(ask: Ask, accepting: Bytes, refusing: Bytes)
    | CloseRequested(channel: U32, accepting: Bytes)
    | Told                                     // passed on to whoever waits for it, nothing more

  /** What one call into the session leads to: octets, events, and the channel table afterwards. */
  datatype Reaction = Reaction(octets: Bytes, events: seq<Event>, table: T.Table)

  /** A transport together with what it has been given, and what the session above it has produced. */
  datatype Leg = Leg(wire: Bytes, produced: Bytes)

  datatype Driver = Driver(
    router: Router,
    outbound: Bytes, events: seq<Event>,     // the session: octets not yet polled, events not yet polled
    table: T.Table,                          // and its channels
    acted: seq<Event>,                       // history: the events acted upon so far
    out: Bytes,                              // octets polled and not yet written
    awaiting: bool,                          // a start was accepted that will replace the transport
    leg: Leg, past: seq<Leg>,                // the transport now, and those before it
    readCount: nat, writeCount: nat)         // how often the transport was read and written

  // ---- answering a start -------------------------------------------------------------

  /** `Router::choose`: the first profile offered that this end serves. */
  function Choose(router: Router, profiles: seq<string>): Option<string>
  {
    if profiles == [] then None
    else if profiles[0] in router then Some(profiles[0])
    else Choose(router, profiles[1..])
  }

  /** It is one that is served, and none before it is; there is none exactly when no profile offered is served. */
  lemma {:induction false} ChooseFirst(router: Router, profiles: seq<string>)
    ensures Choose(router, profiles).Some? <==> exists i :: 0 <= i < |profiles| && profiles[i] in router
    ensures Choose(router, profiles).Some? ==>
      exists i :: 0 <= i < |profiles| && profiles[i] == Choose(router, profiles).value && profiles[i] in router
                  && forall j :: 0 <= j < i ==> profiles[j] !in router
  {
    if profiles != [] && profiles[0] !in router {
      ChooseFirst(router, profiles[1..]);
      if Choose(router, profiles[1..]).Some? {
        var i :| 0 <= i < |profiles[1..]| && profiles[1..][i] == Choose(router, profiles[1..]).value && profiles[1..][i] in router
                 && forall j :: 0 <= j < i ==> profiles[1..][j] !in router;
        assert profiles[i + 1] == profiles[1..][i];
        forall j | 0 <= j < i + 1
          ensures profiles[j] !in router
        {
          assert j > 0 ==> profiles[j] == profiles[1..][j - 1];
        }
      } else {
        forall i | 0 <= i < |profiles|
          ensures profiles[i] !in router
        {
          assert i > 0 ==> profiles[i] == profiles[1..][i - 1];
        }
      }
    }
  }

  /** `start_requested`: refused if nothing serves it or the handler does not want it, else accepted if the session takes the number. */
  function Answer(d: Driver, e: Event): Driver
    requires e.StartRequested?
  {
    var uri := Choose(d.router, e.ask.profiles);
    if uri.None? || !Serving(d, e).accepts(e.ask) then Produce(d, e.refusing)
    else
      var t := T.Next(d.table, T.AcceptStart(e.ask.channel));
      if t.Failed? then d
      else Produce(d.(table := t.value, awaiting := d.awaiting || Serving(d, e).upgrades), e.accepting)
  }

  /** The handler the router picks; any, if it picks none. */
  function Serving(d: Driver, e: Event): Handler
    requires e.StartRequested?
  {
    ChooseFirst(d.router, e.ask.profiles);
    var uri := Choose(d.router, e.ask.profiles);
    if uri.Some? then d.router[uri.value] else Handler((_: Ask) => false, false)
  }

  /** A start that will be accepted, by a handler that replaces the transport. */
  ghost predicate Tunes(d: Driver, e: Event)
  {
    && e.StartRequested?
    && Serving(d, e).upgrades && Serving(d, e).accepts(e.ask)
    && e.ask.channel != 0 && !d.table.role.Owns(e.ask.channel) && e.ask.channel !in d.table.open
  }

  // ---- draining the session ----------------------------------------------------------

  /** Events a driver has to act upon on account of this one. */
  function Weight(e: Event): nat { if e.CloseRequested? then 2 else 1 }

  function Weights(es: seq<Event>): nat
  {
    if es == [] then 0 else Weight(es[0]) + Weights(es[1..])
  }

  lemma {:induction false} WeightsAppend(a: seq<Event>, b: seq<Event>)
    ensures Weights(a + b) == Weights(a) + Weights(b)
  {
    if a == [] {
      assert a + b == b;
    } else {
      assert (a + b)[0] == a[0] && (a + b)[1..] == a[1..] + b;
      WeightsAppend(a[1..], b);
    }
  }

  /** The session produces octets. */
  function Produce(d: Driver, octets: Bytes): Driver
  {
    d.(outbound := d.outbound + octets, leg := d.leg.(produced := d.leg.produced + octets))
  }

  /** `poll_transmit` into `out`. */
  function Poll(d: Driver): Driver
  {
    d.(outbound := [], out := d.out + d.outbound)
  }

  /** `poll_event` and `handle_event`; a close is accepted, and the channel's end reported. */
  function Act(d: Driver): Driver
    requires d.events != []
  {
    var (e, d') := (d.events[0], d.(events := d.events[1..], acted := d.acted + [d.events[0]]));
    match e
    case StartRequested(_, _, _) => Answer(d', e)
    case CloseRequested(channel, octets) =>
      Produce(d'.(table := T.FinishClose(d.table, channel), events := d'.events + [Told]), octets)
    case Told => d'
  }

  lemma {:induction false} ActLighter(d: Driver)
    requires d.events != []
    ensures Weights(Act(Poll(d)).events) < Weights(d.events)
  {
    WeightsAppend(d.events[1..], [Told]);
    assert Weights([Told]) == 1 + Weights([]);
    ActEvents(Poll(d));
  }

  lemma {:induction false} ActEvents(d: Driver)
    requires d.events != []
    ensures Act(d).events == d.events[1..] + if d.events[0].CloseRequested? then [Told] else []
    ensures Act(d).acted == d.acted + [d.events[0]]
    ensures Act(d).out == d.out && Act(d).leg.wire == d.leg.wire && Act(d).past == d.past && Act(d).router == d.router
    ensures Act(d).readCount == d.readCount && Act(d).writeCount == d.writeCount && (d.awaiting ==> Act(d).awaiting)
    ensures Conserves(d) ==> Conserves(Act(d))
  {
    hide Choose, T.Next;
    assert d.events[1..] + [] == d.events[1..];
    if Conserves(d) {
      match d.events[0]
      case StartRequested(_, accepting, refusing) =>
        ProduceConserves(d, accepting);
        ProduceConserves(d, refusing);
      case CloseRequested(_, accepting) => ProduceConserves(d, accepting);
      case Told =>
    }
  }

  /** Everything the session has to say, and what saying it leads to. */
  function Drain(d: Driver): (r: Driver)
    ensures r.outbound == [] && r.events == []
    decreases Weights(d.events)
  {
    if d.events == [] then Poll(d)
    else
      ActLighter(d);
      Drain(Act(Poll(d)))
  }

  // ---- the steps of `pump` -----------------------------------------------------------

  datatype Step =
    | Command(r: Reaction)                              // a handle's request, carried out by the session
    | Upgrade(lastReply: Bytes, greeting: Reaction)     // the transport is replaced and a new session begins
    | Read(r: Reaction)                                 // octets read and handed to the session
    | Write(n: nat)                                     // some of `out` written

  function React(d: Driver, r: Reaction): Driver
  {
    Produce(d.(events := d.events + r.events, table := r.table), r.octets)
  }

  /** `upgrade`, its handshake successful: everything queued is written, then all begins anew. */
  function Swap(d: Driver, lastReply: Bytes, greeting: Reaction): Driver
  {
    var p := Poll(Produce(d, lastReply));
    var left := p.leg.(wire := p.leg.wire + p.out);
    Driver(p.router, greeting.octets, greeting.events, greeting.table, p.acted, [], false, Leg([], greeting.octets), p.past + [left],
           p.readCount, p.writeCount)
  }

  /** What `pump` waits for once the session is drained. */
  predicate Enabled(d: Driver, step: Step)
  {
    var e := Drain(d);
    match step
    case Command(_) => true
    case Upgrade(_, _) => true
    case Read(_) => !e.awaiting
    case Write(n) => !e.awaiting && e.out != [] && n <= |e.out|
  }

  function Next(d: Driver, step: Step): Driver
    requires Enabled(d, step)
  {
    var e := Drain(d);
    match step
    case Command(r) => React(e, r)
    case Upgrade(lastReply, greeting) => Swap(e, lastReply, greeting)
    case Read(r) => React(e.(readCount := e.readCount + 1), r)
    case Write(n) => e.(out := e.out[n..], leg := e.leg.(wire := e.leg.wire + e.out[..n]), writeCount := e.writeCount + 1)
  }

  // ---- nothing is lost, and nothing goes to the wrong transport ----------------------

  /** What was written, what waits to be written and what waits to be polled is what was produced. */
  ghost predicate Conserves(d: Driver)
  {
    d.leg.wire + (d.out + d.outbound) == d.leg.produced
  }

  ghost predicate Delivered(past: seq<Leg>)
  {
    forall i :: 0 <= i < |past| ==> past[i].wire == past[i].produced
  }

  lemma {:induction false} ProduceConserves(d: Driver, octets: Bytes)
    requires Conserves(d)
    ensures Conserves(Produce(d, octets))
  {
    Associate(d.out, d.outbound, octets);
    Associate(d.leg.wire, d.out + d.outbound, octets);
  }

  /** Draining only moves octets along; it touches no transport. */
  lemma {:induction false} DrainKeeps(d: Driver)
    ensures
      var r := Drain(d);
      && r.leg.wire == d.leg.wire && r.past == d.past && r.readCount == d.readCount && r.writeCount == d.writeCount
      && (d.awaiting ==> r.awaiting) && r.router == d.router
    ensures Conserves(d) ==> Conserves(Drain(d))
    decreases Weights(d.events)
  {
    hide Act;
    assert (d.out + d.outbound) + [] == d.out + d.outbound;
    if d.events != [] {
      ActLighter(d);
      ActEvents(Poll(d));
      DrainKeeps(Act(Poll(d)));
    }
  }

  lemma {:induction false} SwapConserves(d: Driver, lastReply: Bytes, greeting: Reaction)
    requires Conserves(d) && Delivered(d.past)
    ensures Conserves(Swap(d, lastReply, greeting)) && Delivered(Swap(d, lastReply, greeting).past)
  {
    ProduceConserves(d, lastReply);
    var p := Poll(Produce(d, lastReply));
    assert p.out + [] == p.out;
    assert [] + ([] + greeting.octets) == greeting.octets;
  }

  lemma {:induction false} WriteConserves(d: Driver, n: nat)
    requires Conserves(d) && d.outbound == [] && n <= |d.out|
    ensures Conserves(d.(out := d.out[n..], leg := d.leg.(wire := d.leg.wire + d.out[..n]), writeCount := d.writeCount + 1))
  {
    Associate(d.leg.wire, d.out[..n], d.out[n..]);
    assert d.out[..n] + d.out[n..] == d.out && d.out[n..] + [] == d.out[n..] && d.out + [] == d.out;
  }

  lemma {:induction false} StepConserves(d: Driver, step: Step)
    requires Conserves(d) && Delivered(d.past) && Enabled(d, step)
    ensures Conserves(Next(d, step)) && Delivered(Next(d, step).past)
    ensures d.past <= Next(d, step).past
  {
    hide Drain;
    DrainKeeps(d);
    var e := Drain(d);
    match step
    case Command(r) => ProduceConserves(e.(events := e.events + r.events, table := r.table), r.octets);
    case Upgrade(lastReply, greeting) => SwapConserves(e, lastReply, greeting);
    case Read(r) => ProduceConserves(e.(readCount := e.readCount + 1, events := e.events + r.events, table := r.table), r.octets);
    case Write(n) => WriteConserves(e, n);
  }

  ghost predicate Runs(d: Driver, steps: seq<Step>, d': Driver)
    decreases |steps|
  {
    if steps == [] then d == d' else Enabled(d, steps[0]) && Runs(Next(d, steps[0]), steps[1..], d')
  }

  function Begin(router: Router, greeting: Reaction): Driver
  {
    Driver(router, greeting.octets, greeting.events, greeting.table, [], [], false, Leg([], greeting.octets), [], 0, 0)
  }

  lemma {:induction false} RunConserves(d: Driver, steps: seq<Step>, d': Driver)
    requires Conserves(d) && Delivered(d.past) && Runs(d, steps, d')
    ensures Conserves(d') && Delivered(d'.past) && d.past <= d'.past
    decreases |steps|
  {
    hide Enabled, Next;
    if steps != [] {
      StepConserves(d, steps[0]);
      RunConserves(Next(d, steps[0]), steps[1..], d');
    }
  }

  /**
   * Each transport carries its own session: in every run, a transport that was replaced has
   * received everything its session produced, in order, and never anything of a later session;
   * the current one has received a beginning of what its session produced.
   */
  lemma {:induction false} TransportsKeptApart(router: Router, greeting: Reaction, before: seq<Step>, d: Driver, after: seq<Step>, d': Driver)
    requires Runs(Begin(router, greeting), before, d) && Runs(d, after, d')
    ensures Delivered(d'.past) && d.past <= d'.past
    ensures d'.leg.wire <= d'.leg.produced
  {
    assert Conserves(Begin(router, greeting)) by {
      assert [] + ([] + greeting.octets) == greeting.octets;
    }
    RunConserves(Begin(router, greeting), before, d);
    RunConserves(d, after, d');
  }

  /** While an upgrade is awaited nothing is read and nothing is written. */
  lemma {:induction false} HeldBack(d: Driver, steps: seq<Step>, d': Driver)
    requires Drain(d).awaiting && Runs(d, steps, d') && forall i :: 0 <= i < |steps| ==> !steps[i].Upgrade?
    ensures Drain(d').awaiting && d'.readCount == d.readCount && d'.writeCount == d.writeCount && d'.leg.wire == d.leg.wire && d'.past == d.past
    decreases |steps|
  {
    hide Drain;
    if steps != [] {
      DrainKeeps(d);
      DrainKeeps(Next(d, steps[0]));
      HeldBack(Next(d, steps[0]), steps[1..], d');
    }
  }

  lemma {:induction false} TunesAwaits(d: Driver)
    requires d.events != [] && Tunes(d, d.events[0])
    ensures Drain(d).awaiting
  {
    hide Choose, T.Next, Drain;
    T.AcceptStartIs(d.table, d.events[0].ask.channel);
    ChooseFirst(d.router, d.events[0].ask.profiles);
    DrainOne(d);
    DrainKeeps(Act(Poll(d)));
  }

  lemma {:induction false} DrainOne(d: Driver)
    requires d.events != []
    ensures Drain(d) == Drain(Act(Poll(d)))
  {
    hide Act;
  }

  /**
   * Transport swap discipline: from the moment the driver meets a start that the router gives to
   * a profile replacing the transport, that this profile accepts and that the session can take,
   * nothing is read and nothing is written until the upgrade.
   */
  lemma {:induction false} QuietUntilUpgrade(d: Driver, steps: seq<Step>, d': Driver)
    requires d.events != [] && Tunes(d, d.events[0])
    requires Runs(d, steps, d') && forall i :: 0 <= i < |steps| ==> !steps[i].Upgrade?
    ensures Drain(d').awaiting && d'.readCount == d.readCount && d'.writeCount == d.writeCount && d'.leg.wire == d.leg.wire && d'.past == d.past
  {
    TunesAwaits(d);
    HeldBack(d, steps, d');
  }

  /** Acting upon an event starts the wait exactly when it is such a start. */
  lemma {:induction false} AwaitsExactly(d: Driver)
    requires d.events != []
    ensures Act(d).awaiting <==> d.awaiting || Tunes(d, d.events[0])
  {
    hide Choose, T.Next;
    if d.events[0].StartRequested? {
      T.AcceptStartIs(d.table, d.events[0].ask.channel);
      ChooseFirst(d.router, d.events[0].ask.profiles);
    }
  }

  /** Nothing else makes the driver wait: with no profile that replaces the transport it never stops reading and writing. */
  lemma {:induction false} NeverHeldBack(d: Driver, steps: seq<Step>, d': Driver)
    requires !d.awaiting && (forall uri :: uri in d.router ==> !d.router[uri].upgrades) && Runs(d, steps, d')
    ensures !Drain(d').awaiting && d'.router == d.router
    decreases |steps|
  {
    hide Drain, Enabled;
    NoTuning(d);
    if steps != [] {
      DrainKeeps(d);
      NeverHeldBack(Next(d, steps[0]), steps[1..], d');
    }
  }

  lemma {:induction false} NoTuning(d: Driver)
    requires !d.awaiting && forall uri :: uri in d.router ==> !d.router[uri].upgrades
    ensures !Drain(d).awaiting
    decreases Weights(d.events)
  {
    hide Act;
    if d.events != [] {
      ActLighter(d);
      ActEvents(Poll(d));
      AwaitsExactly(Poll(d));
      if d.events[0].StartRequested? {
        ChooseFirst(d.router, d.events[0].ask.profiles);
      }
      NoTuning(Act(Poll(d)));
    }
  }

  // ---- every event is acted upon -----------------------------------------------------

  /** What follows from acting upon events: each close that is accepted is reported back. */
  function Follows(es: seq<Event>): seq<Event>
  {
    if es == [] then [] else (if es[0].CloseRequested? then [Told] else []) + Follows(es[1..])
  }

  lemma {:induction false} FollowsAppend(a: seq<Event>, b: seq<Event>)
    ensures Follows(a + b) == Follows(a) + Follows(b)
  {
    if a == [] {
      assert a + b == b;
    } else {
      assert (a + b)[0] == a[0] && (a + b)[1..] == a[1..] + b;
      FollowsAppend(a[1..], b);
    }
  }

  /** Draining acts upon everything reported, in order, and then upon what followed from that. */
  lemma {:induction false} DrainActs(d: Driver)
    ensures Drain(d).acted == d.acted + (d.events + Follows(d.events)) && Drain(d).events == []
    decreases Weights(d.events)
  {
    hide Act;
    if d.events == [] {
      assert d.acted + ([] + []) == d.acted;
    } else {
      ActLighter(d);
      ActEvents(Poll(d));
      DrainActs(Act(Poll(d)));
      var (e, rest) := (d.events[0], d.events[1..]);
      var told := if e.CloseRequested? then [Told] else [];
      FollowsAppend(rest, told);
      assert Follows(told) == [] by {
        assert told != [] ==> told[1..] == [];
      }
      assert Follows(rest) + [] == Follows(rest);
      assert d.acted + [e] + (rest + told + Follows(rest)) == d.acted + ([e] + rest + (told + Follows(rest)));
      assert [e] + rest == d.events;
    }
  }

  /** The events a step brings: those its call into the session reports, or the new session's greeting. */
  function Brought(step: Step): seq<Event>
  {
    match step
    case Command(r) => r.events
    case Upgrade(_, greeting) => greeting.events
    case Read(r) => r.events
    case Write(_) => []
  }

  function AllBrought(steps: seq<Step>): seq<Event>
    decreases |steps|
  {
    if steps == [] then []
    else
      var es := Brought(steps[|steps| - 1]);
      AllBrought(steps[..|steps| - 1]) + (es + Follows(es))
  }

  /**
   * What a step makes of the session it finds drained: its events wait to be acted upon, its
   * octets are said, and its channel table is the one the call left.
   */
  lemma {:induction false} StepBrings(d: Driver, step: Step)
    requires Enabled(d, step)
    ensures Next(d, step).acted == Drain(d).acted && Next(d, step).events == Brought(step) && Next(d, step).router == Drain(d).router
    ensures
      var (e, d') := (Drain(d), Next(d, step));
      match step
      case Command(r) => d'.leg.produced == e.leg.produced + r.octets && d'.table == r.table
      case Read(r) => d'.leg.produced == e.leg.produced + r.octets && d'.table == r.table
      case Upgrade(_, greeting) => d'.leg.produced == greeting.octets && d'.outbound == greeting.octets && d'.table == greeting.table
      case Write(n) => d'.leg == e.leg.(wire := e.leg.wire + e.out[..n]) && d'.out == e.out[n..] && d'.table == e.table
  {
    hide Drain;
    DrainActs(d);
    assert forall es: seq<Event> :: [] + es == es;
  }

  lemma {:induction false} RunsSnoc(d: Driver, steps: seq<Step>, d': Driver) returns (m: Driver)
    requires Runs(d, steps, d') && steps != []
    ensures Runs(d, steps[..|steps| - 1], m) && Enabled(m, steps[|steps| - 1]) && d' == Next(m, steps[|steps| - 1])
    decreases |steps|
  {
    hide Enabled, Next;
    if |steps| == 1 {
      m := d;
      assert steps[1..] == [];
    } else {
      m := RunsSnoc(Next(d, steps[0]), steps[1..], d');
      assert steps[1..][..|steps[1..]| - 1] == steps[..|steps| - 1][1..];
    }
  }

  /**
   * No event is lost, repeated or reordered: whenever the driver has drained its session it has
   * acted upon exactly the events of the first greeting and of every command, read and upgrade
   * since, in order, each followed by what acting upon them reported back.
   */
  lemma {:induction false} EventsActedUpon(router: Router, greeting: Reaction, steps: seq<Step>, d: Driver)
    requires Runs(Begin(router, greeting), steps, d)
    ensures Drain(d).events == [] && Drain(d).acted == greeting.events + Follows(greeting.events) + AllBrought(steps)
    decreases |steps|
  {
    hide Drain, Enabled, Next;
    var first := greeting.events + Follows(greeting.events);
    DrainActs(d);
    if steps == [] {
      assert d == Begin(router, greeting);
      assert [] + first == first && first + [] == first;
    } else {
      var k := |steps| - 1;
      var m := RunsSnoc(Begin(router, greeting), steps, d);
      EventsActedUpon(router, greeting, steps[..k], m);
      StepBrings(m, steps[k]);
      var es := Brought(steps[k]);
      Associate(first, AllBrought(steps[..k]), es + Follows(es));
    }
  }

  /** Whether a start will be served: some handler serves a profile offered, and wants it. */
  ghost predicate Wanted(d: Driver, ask: Ask)
  {
    exists i :: 0 <= i < |ask.profiles| && ask.profiles[i] in d.router && d.router[ask.profiles[i]].accepts(ask)
                && forall j :: 0 <= j < i ==> ask.profiles[j] !in d.router
  }

  /** Whether the session can take the number: the peer may allocate it, and it is not open. */
  predicate Free(d: Driver, channel: U32)
  {
    channel != 0 && !d.table.role.Owns(channel) && channel !in d.table.open
  }

  /**
   * What acting upon an event makes the session say: a start nobody serves or wants is refused,
   * one that is wanted under a free number is accepted and opens the channel, one under a number
   * that is not free gets no answer at all; a close is accepted and closes the channel.
   */
  lemma {:induction false} ActSays(d: Driver)
    requires d.events != []
    ensures
      var (e, d') := (d.events[0], Act(d));
      match e
      case StartRequested(ask, accepting, refusing) =>
        if !Wanted(d, ask) then d'.leg.produced == d.leg.produced + refusing && d'.table == d.table
        else if Free(d, ask.channel) then
          d'.leg.produced == d.leg.produced + accepting && d'.table == d.table.(open := d.table.open[ask.channel := T.Peer])
        else d'.leg.produced == d.leg.produced && d'.table == d.table
      case CloseRequested(channel, accepting) =>
        && d'.leg.produced == d.leg.produced + accepting
        && d'.table == (if channel == 0 then d.table.(phase := T.Closed, open := map[]) else d.table.(open := d.table.open - {channel}))
      case Told => d'.leg.produced == d.leg.produced && d'.table == d.table
  {
    hide Choose;
    var e := d.events[0];
    if e.StartRequested? {
      ChooseFirst(d.router, e.ask.profiles);
      WantedMeans(d, e);
      assert e.ask.channel in d.table.open || T.Next(d.table, T.AcceptStart(e.ask.channel)).Failed? ||
             T.Next(d.table, T.AcceptStart(e.ask.channel)).value == d.table.(open := d.table.open[e.ask.channel := T.Peer]);
    }
  }

  lemma {:induction false} WantedMeans(d: Driver, e: Event)
    requires e.StartRequested?
    ensures Wanted(d, e.ask) <==> Choose(d.router, e.ask.profiles).Some? && Serving(d, e).accepts(e.ask)
  {
    ChooseFirst(d.router, e.ask.profiles);
    var ps := e.ask.profiles;
    if Choose(d.router, ps).Some? {
      var i :| 0 <= i < |ps| && ps[i] == Choose(d.router, ps).value && ps[i] in d.router && forall j :: 0 <= j < i ==> ps[j] !in d.router;
      if Wanted(d, e.ask) {
        var k :| 0 <= k < |ps| && ps[k] in d.router && d.router[ps[k]].accepts(e.ask) && forall j :: 0 <= j < k ==> ps[j] !in d.router;
        assert k == i;
      }
    }
  }

  /** The upgrade itself puts the acceptance, and all else that was waiting, on the old transport. */
  lemma {:induction false} UpgradeDelivers(d: Driver, lastReply: Bytes, greeting: Reaction)
    requires Conserves(d) && Delivered(d.past)
    ensures
      var d' := Next(d, Upgrade(lastReply, greeting));
      && |d'.past| == |d.past| + 1 && !d'.awaiting
      && d'.past[|d.past|] == Leg(Drain(d).leg.produced + lastReply, Drain(d).leg.produced + lastReply)
      && d'.leg == Leg([], greeting.octets)
  {
    hide Drain;
    DrainKeeps(d);
    SwapConserves(Drain(d), lastReply, greeting);
    StepConserves(d, Upgrade(lastReply, greeting));
  }

  // ---- the driver as it runs ---------------------------------------------------------

  /** What the driver's next wait yields. */
  datatype Wake =
    | Commanded(step: Step)
    | Readable(r: Reaction)
    | Writable(n: nat)

  class Pump {
    const router: Router
    var outbound: Bytes
    var events: seq<Event>
    var table: T.Table              // the session's channels
    var out: Bytes
    var awaitingUpgrade: bool
    var wire: Bytes                 // what the transport in use has been given
    ghost var acted: seq<Event>
    ghost var produced: Bytes
    ghost var past: seq<Leg>
    ghost var readCount: nat
    ghost var writeCount: nat

    ghost function View(): Driver
      reads this
    {
      Driver(router, outbound, events, table, acted, out, awaitingUpgrade, Leg(wire, produced), past, readCount, writeCount)
    }

    constructor (router: Router, greeting: Reaction)
      ensures View() == Begin(router, greeting)
    {
      this.router, table := router, greeting.table;
      outbound, events, out, awaitingUpgrade, wire := greeting.octets, greeting.events, [], false, [];
      produced, acted, past, readCount, writeCount := greeting.octets, [], [], 0, 0;
    }

    /** The inner loop of `pump`: octets and events in turn, until the session has nothing more to say. */
    method DrainSession()
      modifies this
      ensures View() == Drain(old(View()))
    {
      hide Weights;
      while true
        invariant Drain(View()) == Drain(old(View()))
        decreases Weights(events)
      {
        ghost var before := View();
        out := out + outbound;
        outbound := [];
        assert View() == Poll(before);
        if events == [] {
          break;
        }
        ActLighter(before);
        HandleEvent();
      }
    }

    method Say(octets: Bytes)
      modifies this`outbound, this`produced
      ensures View() == Produce(old(View()), octets)
    {
      outbound := outbound + octets;
      produced := produced + octets;
    }

    /** `poll_event` and `handle_event`. */
    method HandleEvent()
      requires events != []
      modifies this`events, this`acted, this`table, this`outbound, this`produced, this`awaitingUpgrade
      ensures View() == Act(old(View()))
    {
      var e := events[0];
      events, acted := events[1..], acted + [e];
      match e {
        case StartRequested(ask, accepting, refusing) =>
          StartWanted(e);
        case CloseRequested(channel, octets) =>
          table := T.FinishClose(table, channel);
          events := events + [Told];
          Say(octets);
        case Told =>
      }
    }

    /** `start_requested`: the router chooses, its handler decides, and the session takes the number or does not. */
    method StartWanted(e: Event)
      requires e.StartRequested?
      modifies this`table, this`outbound, this`produced, this`awaitingUpgrade
      ensures View() == Answer(old(View()), e)
    {
      hide T.Next;
      var uri := ChooseProfile(e.ask.profiles);
      ChooseFirst(router, e.ask.profiles);
      if uri.None? {
        Say(e.refusing);
        return;
      }
      var handler := router[uri.value];
      if !handler.accepts(e.ask) {
        Say(e.refusing);
        return;
      }
      var t := T.Next(table, T.AcceptStart(e.ask.channel));
      if t.Ok? {
        table := t.value;
        awaitingUpgrade := awaitingUpgrade || handler.upgrades;
        Say(e.accepting);
      }
    }

    /** `Router::choose`. */
    method ChooseProfile(profiles: seq<string>) returns (uri: Option<string>)
      ensures uri == Choose(router, profiles)
    {
      var i := 0;
      while i < |profiles|
        invariant 0 <= i <= |profiles| && Choose(router, profiles) == Choose(router, profiles[i..])
      {
        if profiles[i] in router {
          return Some(profiles[i]);
        }
        i := i + 1;
      }
      return None;
    }

    /** `upgrade`, once the handshake has succeeded. */
    method UpgradeTransport(lastReply: Bytes, greeting: Reaction)
      modifies this
      ensures View() == Swap(old(View()), lastReply, greeting)
    {
      Say(lastReply);
      out := out + outbound;
      wire := wire + out;
      past := past + [Leg(wire, produced)];
      outbound, events, out, awaitingUpgrade, wire := greeting.octets, greeting.events, [], false, [];
      produced, table := greeting.octets, greeting.table;
    }

    /**
     * One turn of `pump`: drain, then take whichever wait is allowed and yields. While an upgrade
     * is awaited only commands are waited for, so anything else leaves the driver where it is.
     */
    method Turn(w: Wake) returns (taken: bool)
      requires w.Commanded? ==> w.step.Command? || w.step.Upgrade?
      modifies this
      ensures
        var step := match w case Commanded(s) => s case Readable(r) => Read(r) case Writable(n) => Write(n);
        && taken == Enabled(old(View()), step)
        && View() == if taken then Next(old(View()), step) else Drain(old(View()))
    {
      hide Drain;
      DrainSession();
      taken := true;
      match w {
        case Commanded(step) =>
          if step.Upgrade? {
            UpgradeTransport(step.lastReply, step.greeting);
          } else {
            events, table := events + step.r.events, step.r.table;
            outbound := outbound + step.r.octets;
            produced := produced + step.r.octets;
          }
        case Readable(r) =>
          if awaitingUpgrade {
            taken := false;
          } else {
            readCount := readCount + 1;
            events, table := events + r.events, r.table;
            outbound := outbound + r.octets;
            produced := produced + r.octets;
          }
        case Writable(n) =>
          if awaitingUpgrade || out == [] || n > |out| {
            taken := false;
          } else {
            wire := wire + out[..n];
            out := out[n..];
            writeCount := writeCount + 1;
          }
      }
    }
  }
}
