/** Every interleaving of calls on the login table with the drivers of the
    flows: each login ends once, by the first decisive thing its driver heard,
    and the pool moves exactly when it ends succeeded. */
module LoginRuns {
  import opened Wrappers
  import opened Login

  /** What a waiting driver takes up. */
  datatype Heard = FromQueue(event: Event) | FromCallback(query: string) | ListenerFailed | Expired

  datatype End = EndCancelled | EndFailed | EndSucceeded(account: Handle)

  /** Where a driver is; `exchanged` tells whether the exchange began before the end. */
  datatype Pc =
    | Waiting
    | Completing(code: string)
    | Exchange(code: string)
    | Ending(end: End, exchanged: bool)
    | Done(end: End, exchanged: bool)

  /** A driver, what it has taken up so far, and what was accepted into its queue. */
  datatype Driver = Driver(pc: Pc, state: string, heard: seq<Heard>, accepted: seq<Event>)

  /** The logins that moved the pool, in order. */
  datatype World = World(table: Table, drivers: map<Id, Driver>, moves: seq<Id>, now: int)

  datatype Choice =
    | Start(id: Id, state: string, expiresAt: int, owner: Option<string>)
    | Send(id: Id, event: Event)
    | Tick(seconds: nat)
    | Receive(id: Id)
    | Callback(id: Id, query: string)
    | ListenerFails(id: Id)
    | Expire(id: Id)
    | BeginExchange(id: Id)
    | EndExchange(id: Id, account: Option<Handle>)
    | Finish(id: Id)

  function PasteIn(h: Heard): Option<string> {
    match h
    case FromQueue(Submitted(paste)) => Some(paste)
    case FromCallback(query) => Some(query)
    case _ => None
  }

  /** What taking something up makes of a waiting driver. */
  function Decided(h: Heard, state: string, decode: Decoder): Pc {
    match PasteIn(h)
    case Some(paste) => (
      match PasteOf(paste, state, decode)
      case Code(code) => Completing(code)
      case RefusedPaste => Ending(EndFailed, false)
      case Other => Waiting)
    case None => if h == FromQueue(Cancel) then Ending(EndCancelled, false) else Ending(EndFailed, false)
  }

  function Hear(w: World, id: Id, h: Heard, decode: Decoder): World
    requires id in w.drivers
  {
    var d := w.drivers[id];
    if !d.pc.Waiting? then w
    else w.(drivers := w.drivers[id := d.(pc := Decided(h, d.state, decode), heard := d.heard + [h])])
  }

  function StateOf(end: End): OpState {
    match end
    case EndCancelled => Cancelled
    case EndFailed => Failed
    case EndSucceeded(_) => Succeeded
  }

  function AccountOf(end: End): Option<Handle> {
    if end.EndSucceeded? then Some(end.account) else None
  }

  function Step(w: World, c: Choice, decode: Decoder): World {
    match c
    case Start(id, state, expiresAt, owner) =>
      if id in w.table || id in w.drivers then w
      else w.(table := AfterSweep(w.table, w.now)[id := Operation(expiresAt, owner, Awaiting, None, None, [])],
              drivers := w.drivers[id := Driver(Waiting, state, [], [])])
    case Send(id, event) =>
      var (table, r) := AfterSend(w.table, id, event);
      if r.Err? || id !in w.drivers then w
      else w.(table := table, drivers := w.drivers[id := w.drivers[id].(accepted := w.drivers[id].accepted + [event])])
    case Tick(seconds) => w.(now := w.now + seconds)
    case Receive(id) =>
      if id !in w.drivers || !w.drivers[id].pc.Waiting? || id !in w.table || w.table[id].events == [] then w
      else
        var o := w.table[id];
        Hear(w.(table := w.table[id := o.(events := o.events[1..])]), id, FromQueue(o.events[0]), decode)
    case Callback(id, query) => if id in w.drivers then Hear(w, id, FromCallback(query), decode) else w
    case ListenerFails(id) => if id in w.drivers then Hear(w, id, ListenerFailed, decode) else w
    case Expire(id) => if id in w.drivers then Hear(w, id, Expired, decode) else w
    case BeginExchange(id) =>
      if id !in w.drivers || !w.drivers[id].pc.Completing? then w
      else w.(table := AfterSetState(w.table, id, Exchanging),
              drivers := w.drivers[id := w.drivers[id].(pc := Exchange(w.drivers[id].pc.code))])
    case EndExchange(id, account) =>
      if id !in w.drivers || !w.drivers[id].pc.Exchange? then w
      else
        var end := if account.Some? then EndSucceeded(account.value) else EndFailed;
        w.(drivers := w.drivers[id := w.drivers[id].(pc := Ending(end, true))],
           moves := if account.Some? then w.moves + [id] else w.moves)
    case Finish(id) =>
      if id !in w.drivers || !w.drivers[id].pc.Ending? then w
      else
        var pc := w.drivers[id].pc;
        w.(table := AfterFinish(w.table, id, StateOf(pc.end), AccountOf(pc.end), w.now),
           drivers := w.drivers[id := w.drivers[id].(pc := Done(pc.end, pc.exchanged))])
  }

  const NOTHING := World(map[], map[], [], 0)

  function Run(choices: seq<Choice>, decode: Decoder): World {
    if choices == [] then NOTHING else Step(Run(choices[..|choices| - 1], decode), choices[|choices| - 1], decode)
  }

  // ---------------------------------------------------------------- what holds of every login

  /** Something that ends the waiting. */
  predicate Decisive(h: Heard, state: string, decode: Decoder) {
    !Decided(h, state, decode).Waiting?
  }

  /** Where the last thing heard leads a driver: on to the exchange, or straight to an end. */
  predicate LedTo(decided: Pc, pc: Pc) {
    match decided
    case Completing(code) =>
      || pc == Completing(code) || pc == Exchange(code)
      || (EndOf(pc).Some? && ThroughExchange(pc) && !EndOf(pc).value.EndCancelled?)
    case Ending(end, _) =>
      EndOf(pc) == Some(end) && !ThroughExchange(pc) && !end.EndSucceeded?
    case _ => false
  }

  function EndOf(pc: Pc): Option<End> {
    if pc.Ending? || pc.Done? then Some(pc.end) else None
  }

  predicate ThroughExchange(pc: Pc) {
    (pc.Ending? || pc.Done?) && pc.exchanged
  }

  /** The outcome fits what was heard last; before it, nothing decisive. */
  ghost predicate HeardFits(d: Driver, decode: Decoder) {
    var n := |d.heard|;
    && (forall k :: 0 <= k < n - 1 ==> !Decisive(d.heard[k], d.state, decode))
    && (n > 0 && d.pc.Waiting? ==> !Decisive(d.heard[n - 1], d.state, decode))
    && (!d.pc.Waiting? ==> n > 0 && LedTo(Decided(d.heard[n - 1], d.state, decode), d.pc))
  }

  /** What the driver took from the queue and what is left of it are what was accepted, in order. */
  function Taken(heard: seq<Heard>): seq<Event> {
    if heard == [] then []
    else
      var front := Taken(heard[..|heard| - 1]);
      if heard[|heard| - 1].FromQueue? then front + [heard[|heard| - 1].event] else front
  }

  predicate Exchanged(pc: Pc) {
    pc.Exchange? || (pc.Ending? && pc.exchanged)
  }

  /** The record of a login says where its driver is. */
  predicate RecordFits(o: Operation, pc: Pc) {
    if pc.Done? then o.endedAt.Some? && o.state == StateOf(pc.end) && o.account == AccountOf(pc.end)
    else o.endedAt.None? && o.account.None? && o.state == if Exchanged(pc) then Exchanging else Awaiting
  }

  predicate Succeeds(pc: Pc) {
    EndOf(pc).Some? && EndOf(pc).value.EndSucceeded?
  }

  ghost predicate LoginFits(table: Table, drivers: map<Id, Driver>, moves: multiset<Id>, id: Id, decode: Decoder) {
    if id !in drivers then id !in table && moves[id] == 0
    else
      var d := drivers[id];
      && HeardFits(d, decode)
      && (id in table ==> RecordFits(table[id], d.pc) && Taken(d.heard) + table[id].events == d.accepted)
      && (!d.pc.Done? ==> id in table)
      && moves[id] == (if Succeeds(d.pc) then 1 else 0)
  }

  ghost predicate Inv(w: World, decode: Decoder) {
    forall id: Id :: LoginFits(w.table, w.drivers, multiset(w.moves), id, decode)
  }

  lemma TakenMore(heard: seq<Heard>, h: Heard)
    ensures Taken(heard + [h]) == if h.FromQueue? then Taken(heard) + [h.event] else Taken(heard)
  {
    assert (heard + [h])[..|heard|] == heard;
  }

  lemma HearFits(d: Driver, h: Heard, decode: Decoder)
    requires HeardFits(d, decode) && d.pc.Waiting?
    ensures HeardFits(d.(pc := Decided(h, d.state, decode), heard := d.heard + [h]), decode)
  {
    var later := d.(pc := Decided(h, d.state, decode), heard := d.heard + [h]);
    forall k | 0 <= k < |later.heard| - 1
      ensures !Decisive(later.heard[k], later.state, decode)
    {
      assert later.heard[k] == d.heard[k];
    }
  }

  /** A step on one login leaves the others as they fit. */
  lemma OthersFit(w: World, later: World, id: Id, decode: Decoder)
    requires Inv(w, decode)
    requires LoginFits(later.table, later.drivers, multiset(later.moves), id, decode)
    requires forall other :: other != id ==>
               && (other in later.table <==> other in w.table) && (other in w.table ==> later.table[other] == w.table[other])
               && (other in later.drivers <==> other in w.drivers) && (other in w.drivers ==> later.drivers[other] == w.drivers[other])
               && multiset(later.moves)[other] == multiset(w.moves)[other]
    ensures Inv(later, decode)
  {
    forall other: Id
      ensures LoginFits(later.table, later.drivers, multiset(later.moves), other, decode)
    {
      assert LoginFits(w.table, w.drivers, multiset(w.moves), other, decode);
    }
  }

  lemma HearKeeps(w: World, id: Id, h: Heard, decode: Decoder)
    requires Inv(w, decode) && id in w.drivers && !h.FromQueue?
    ensures Inv(Hear(w, id, h, decode), decode)
  {
    if w.drivers[id].pc.Waiting? {
      assert LoginFits(w.table, w.drivers, multiset(w.moves), id, decode);
      HearFits(w.drivers[id], h, decode);
      TakenMore(w.drivers[id].heard, h);
      OthersFit(w, Hear(w, id, h, decode), id, decode);
    }
  }

  lemma ReceiveKeeps(w: World, id: Id, decode: Decoder)
    requires Inv(w, decode)
    ensures Inv(Step(w, Receive(id), decode), decode)
  {
    var later := Step(w, Receive(id), decode);
    if later != w {
      assert LoginFits(w.table, w.drivers, multiset(w.moves), id, decode);
      ReceiveFits(w, id, decode);
      ReceiveMovesOne(w, id, decode);
      hide Inv, LoginFits, Step;
      OthersFit(w, later, id, decode);
    }
  }

  lemma ReceiveMovesOne(w: World, id: Id, decode: Decoder)
    ensures var later := Step(w, Receive(id), decode);
            && later.moves == w.moves
            && (forall other :: other != id ==>
                  && (other in later.table <==> other in w.table)
                  && (other in w.table ==> later.table[other] == w.table[other])
                  && (other in later.drivers <==> other in w.drivers)
                  && (other in w.drivers ==> later.drivers[other] == w.drivers[other]))
  {
    hide Decided;
  }

  lemma ReceiveFits(w: World, id: Id, decode: Decoder)
    requires LoginFits(w.table, w.drivers, multiset(w.moves), id, decode) && Step(w, Receive(id), decode) != w
    ensures var later := Step(w, Receive(id), decode);
            LoginFits(later.table, later.drivers, multiset(later.moves), id, decode)
  {
    var o, d := w.table[id], w.drivers[id];
    var h := FromQueue(o.events[0]);
    HearFits(d, h, decode);
    QueueMoves(d.heard, o.events);
    DecidedIsNoEnd(h, d.state, decode);
    hide Decided, Taken, HeardFits;
  }

  /** What leaves the queue is taken. */
  lemma QueueMoves(heard: seq<Heard>, events: seq<Event>)
    requires events != []
    ensures Taken(heard + [FromQueue(events[0])]) + events[1..] == Taken(heard) + events
  {
    TakenMore(heard, FromQueue(events[0]));
    hide Taken;
    assert events == [events[0]] + events[1..];
    assert Taken(heard) + ([events[0]] + events[1..]) == (Taken(heard) + [events[0]]) + events[1..];
  }

  lemma DecidedIsNoEnd(h: Heard, state: string, decode: Decoder)
    ensures var pc := Decided(h, state, decode); !pc.Done? && !pc.Exchange? && !Succeeds(pc)
  {
    hide PasteOf;
  }

  lemma StartKeeps(w: World, c: Choice, decode: Decoder)
    requires Inv(w, decode) && c.Start?
    ensures Inv(Step(w, c, decode), decode)
  {
    var later := Step(w, c, decode);
    if later != w {
      forall id: Id
        ensures LoginFits(later.table, later.drivers, multiset(later.moves), id, decode)
      {
        assert LoginFits(w.table, w.drivers, multiset(w.moves), id, decode);
      }
    }
  }

  lemma SendKeeps(w: World, id: Id, event: Event, decode: Decoder)
    requires Inv(w, decode)
    ensures Inv(Step(w, Send(id, event), decode), decode)
  {
    var later := Step(w, Send(id, event), decode);
    if later != w {
      assert LoginFits(w.table, w.drivers, multiset(w.moves), id, decode);
      assert Taken(w.drivers[id].heard) + (w.table[id].events + [event]) == w.drivers[id].accepted + [event];
      OthersFit(w, later, id, decode);
    }
  }

  lemma DriverKeeps(w: World, c: Choice, decode: Decoder)
    requires Inv(w, decode) && (c.BeginExchange? || c.EndExchange? || c.Finish?)
    ensures Inv(Step(w, c, decode), decode)
  {
    var later := Step(w, c, decode);
    if later != w {
      assert LoginFits(w.table, w.drivers, multiset(w.moves), c.id, decode);
      match c {
        case BeginExchange(id) => BeginExchangeFits(w, id, decode);
        case EndExchange(id, account) => EndExchangeFits(w, id, account, decode);
        case Finish(id) => FinishFits(w, id, decode);
      }
      hide LoginFits;
      OthersFit(w, later, c.id, decode);
    }
  }

  lemma BeginExchangeFits(w: World, id: Id, decode: Decoder)
    requires LoginFits(w.table, w.drivers, multiset(w.moves), id, decode) && Step(w, BeginExchange(id), decode) != w
    ensures var later := Step(w, BeginExchange(id), decode);
            LoginFits(later.table, later.drivers, multiset(later.moves), id, decode)
  {
  }

  lemma EndExchangeFits(w: World, id: Id, account: Option<Handle>, decode: Decoder)
    requires LoginFits(w.table, w.drivers, multiset(w.moves), id, decode) && Step(w, EndExchange(id, account), decode) != w
    ensures var later := Step(w, EndExchange(id, account), decode);
            && LoginFits(later.table, later.drivers, multiset(later.moves), id, decode)
            && (account.Some? ==> multiset(later.moves) == multiset(w.moves) + multiset{id})
  {
    if account.Some? {
      assert multiset(w.moves + [id]) == multiset(w.moves) + multiset{id};
    }
  }

  lemma FinishFits(w: World, id: Id, decode: Decoder)
    requires LoginFits(w.table, w.drivers, multiset(w.moves), id, decode) && Step(w, Finish(id), decode) != w
    ensures var later := Step(w, Finish(id), decode);
            LoginFits(later.table, later.drivers, multiset(later.moves), id, decode)
  {
  }

  lemma StepKeeps(w: World, c: Choice, decode: Decoder)
    requires Inv(w, decode)
    ensures Inv(Step(w, c, decode), decode)
  {
    match c
    case Start(_, _, _, _) => StartKeeps(w, c, decode);
    case Send(id, event) => SendKeeps(w, id, event, decode);
    case Tick(_) =>
    case Receive(id) => ReceiveKeeps(w, id, decode);
    case Callback(id, query) => if id in w.drivers { HearKeeps(w, id, FromCallback(query), decode); }
    case ListenerFails(id) => if id in w.drivers { HearKeeps(w, id, ListenerFailed, decode); }
    case Expire(id) => if id in w.drivers { HearKeeps(w, id, Expired, decode); }
    case _ => DriverKeeps(w, c, decode);
  }

  lemma {:induction false} RunKeeps(choices: seq<Choice>, decode: Decoder)
    ensures Inv(Run(choices, decode), decode)
  {
    if choices != [] {
      RunKeeps(choices[..|choices| - 1], decode);
      StepKeeps(Run(choices[..|choices| - 1], decode), choices[|choices| - 1], decode);
    }
  }

  lemma RunFits(choices: seq<Choice>, decode: Decoder, id: Id)
    ensures var w := Run(choices, decode); LoginFits(w.table, w.drivers, multiset(w.moves), id, decode)
  {
    RunKeeps(choices, decode);
    hide Run, LoginFits;
  }

  // ---------------------------------------------------------------- what follows

  /** The pool was moved by a login exactly once if it ended succeeded, and
      otherwise never; the record says the same while it is remembered. */
  lemma PoolMovesIffSucceeded(choices: seq<Choice>, decode: Decoder, id: Id)
    ensures var w := Run(choices, decode);
            && multiset(w.moves)[id] <= 1
            && (id in w.drivers && w.drivers[id].pc.Done? ==>
                  (multiset(w.moves)[id] == 1 <==> w.drivers[id].pc.end.EndSucceeded?))
            && (id in w.table && w.table[id].endedAt.Some? ==>
                  (multiset(w.moves)[id] == 1 <==> w.table[id].state.Succeeded?))
  {
    RunFits(choices, decode, id);
  }

  /** A login is decided by the first decisive thing its driver takes up, and
      takes up nothing after it; what came from the queue came in the order it
      was accepted. */
  lemma FirstDecisiveDecides(choices: seq<Choice>, decode: Decoder, id: Id)
    requires id in Run(choices, decode).drivers && Run(choices, decode).drivers[id].pc.Done?
    ensures var d := Run(choices, decode).drivers[id];
            && d.heard != []
            && (forall k :: 0 <= k < |d.heard| ==> (Decisive(d.heard[k], d.state, decode) <==> k == |d.heard| - 1))
            && (d.pc.end.EndCancelled? <==> d.heard[|d.heard| - 1] == FromQueue(Cancel))
            && (d.pc.end.EndSucceeded? ==>
                  && PasteIn(d.heard[|d.heard| - 1]).Some?
                  && PasteOf(PasteIn(d.heard[|d.heard| - 1]).value, d.state, decode).Code?)
  {
    hide *;
    RunFits(choices, decode, id);
    var w := Run(choices, decode);
    HeardOfLogin(w, id, decode);
    HeardDecides(w.drivers[id], decode);
  }

  lemma HeardOfLogin(w: World, id: Id, decode: Decoder)
    requires LoginFits(w.table, w.drivers, multiset(w.moves), id, decode) && id in w.drivers
    ensures HeardFits(w.drivers[id], decode)
  {
    hide HeardFits;
  }

  lemma HeardDecides(d: Driver, decode: Decoder)
    requires HeardFits(d, decode) && d.pc.Done?
    ensures d.heard != []
    ensures forall k :: 0 <= k < |d.heard| ==> (Decisive(d.heard[k], d.state, decode) <==> k == |d.heard| - 1)
    ensures d.pc.end.EndCancelled? <==> d.heard[|d.heard| - 1] == FromQueue(Cancel)
    ensures d.pc.end.EndSucceeded? ==>
              && PasteIn(d.heard[|d.heard| - 1]).Some?
              && PasteOf(PasteIn(d.heard[|d.heard| - 1]).value, d.state, decode).Code?
  {
    hide PasteOf;
  }

  lemma QueueIsInOrder(choices: seq<Choice>, decode: Decoder, id: Id)
    requires id in Run(choices, decode).table
    ensures var w := Run(choices, decode);
            id in w.drivers && Taken(w.drivers[id].heard) <= w.drivers[id].accepted
  {
    RunFits(choices, decode, id);
  }

  /** Only an ended record is ever forgotten; ended is when the end time is set. */
  lemma RunningIsRemembered(choices: seq<Choice>, decode: Decoder, id: Id)
    requires id in Run(choices, decode).drivers
    ensures var w := Run(choices, decode);
            && (!w.drivers[id].pc.Done? ==> id in w.table && w.table[id].endedAt.None?)
            && (id in w.table ==>
                  (w.table[id].endedAt.Some? <==> w.table[id].state in {Succeeded, Failed, Cancelled}))
  {
    RunFits(choices, decode, id);
  }

  predicate Follows(before: OpState, after: OpState) {
    || before == after
    || (before.Awaiting? && (after.Exchanging? || after.Cancelled? || after.Failed?))
    || (before.Exchanging? && (after.Succeeded? || after.Failed?))
  }

  /** Each step of a run moves a record along the graph of states, and an ended one not at all. */
  lemma StatesFollowTheGraph(choices: seq<Choice>, decode: Decoder, c: Choice, id: Id)
    requires var w := Run(choices, decode); id in w.table && id in Step(w, c, decode).table
    ensures var (w, later) := (Run(choices, decode), Step(Run(choices, decode), c, decode));
            && Follows(w.table[id].state, later.table[id].state)
            && (w.table[id].endedAt.Some? ==> later.table[id].(events := []) == w.table[id].(events := []))
  {
    RunKeeps(choices, decode);
    var w := Run(choices, decode);
    StepKeeps(w, c, decode);
    assert LoginFits(w.table, w.drivers, multiset(w.moves), id, decode);
  }

  /** An ended login is remembered for an hour: only the start of another login
      forgets it, and that exactly when the hour since its end is over. */
  lemma ForgottenAfterAnHourIff(w: World, c: Choice, decode: Decoder, id: Id)
    requires id in w.table
    ensures var later := Step(w, c, decode);
            id !in later.table <==>
            && c.Start? && c.id !in w.table && c.id !in w.drivers
            && w.table[id].endedAt.Some? && w.table[id].endedAt.value + 3600 <= w.now
  {
    if c.Receive? {
      hide Decided;
    } else if c.Start? {
      assert id in AfterSweep(w.table, w.now) <==> Remembered(w.table[id], w.now);
    }
  }

  // ---------------------------------------------------------------- what moves a login on

  /** What a choice brings a driver. */
  function Brings(w: World, c: Choice): Option<Heard> {
    match c
    case Receive(id) => if id in w.table && w.table[id].events != [] then Some(FromQueue(w.table[id].events[0])) else None
    case Callback(_, query) => Some(FromCallback(query))
    case ListenerFails(_) => Some(ListenerFailed)
    case Expire(_) => Some(Expired)
    case _ => None
  }

  /** A waiting driver takes up whatever reaches it, and does with it what it says. */
  lemma WaitingDriverTakesUp(w: World, c: Choice, decode: Decoder)
    requires Brings(w, c).Some? && c.id in w.drivers && w.drivers[c.id].pc.Waiting?
    ensures var (d, h) := (w.drivers[c.id], Brings(w, c).value);
            var later := Step(w, c, decode);
            && c.id in later.drivers
            && later.drivers[c.id] == d.(pc := Decided(h, d.state, decode), heard := d.heard + [h])
            && (c.Receive? ==> later.table[c.id].events == w.table[c.id].events[1..])
  {
    hide Decided;
  }

  /** The way from a code to the end: exchange, its outcome, and the record. */
  lemma DecidedDriverGoesOn(w: World, id: Id, account: Option<Handle>, decode: Decoder)
    requires id in w.drivers
    ensures w.drivers[id].pc.Completing? ==>
              Step(w, BeginExchange(id), decode).drivers[id].pc == Exchange(w.drivers[id].pc.code)
    ensures w.drivers[id].pc.Exchange? ==>
              && Step(w, EndExchange(id, account), decode).drivers[id].pc
                 == Ending(if account.Some? then EndSucceeded(account.value) else EndFailed, true)
              && Step(w, EndExchange(id, account), decode).moves == w.moves + if account.Some? then [id] else []
    ensures w.drivers[id].pc.Ending? ==>
              && Step(w, Finish(id), decode).drivers[id].pc == Done(w.drivers[id].pc.end, w.drivers[id].pc.exchanged)
              && (id in w.table ==>
                    && id in Step(w, Finish(id), decode).table
                    && Step(w, Finish(id), decode).table[id].endedAt == Some(w.now))
  {
  }

  /** The record of an ended login carries the account it was given, exactly when
      it succeeded. */
  lemma RecordCarriesTheAccount(choices: seq<Choice>, decode: Decoder, id: Id)
    requires var w := Run(choices, decode); id in w.drivers && w.drivers[id].pc.Done? && id in w.table
    ensures var w := Run(choices, decode);
            w.table[id].account ==
            match w.drivers[id].pc.end case EndSucceeded(account) => Some(account) case _ => None
  {
    RunFits(choices, decode, id);
  }

  /** A login is started exactly when its identifier is new; it then waits, with an empty queue. */
  lemma StartedLoginWaits(w: World, id: Id, state: string, expiresAt: int, owner: Option<string>, decode: Decoder)
    requires id !in w.table && id !in w.drivers
    ensures var later := Step(w, Start(id, state, expiresAt, owner), decode);
            && id in later.drivers && later.drivers[id] == Driver(Waiting, state, [], [])
            && id in later.table && later.table[id] == Operation(expiresAt, owner, Awaiting, None, None, [])
  {
  }

  /** A paste or a cancel is queued exactly while the login awaits. */
  lemma AcceptedIffAwaiting(w: World, id: Id, event: Event, decode: Decoder)
    requires id in w.drivers && id in w.table
    ensures var later := Step(w, Send(id, event), decode);
            if w.table[id].state.Awaiting?
            then later.table[id].events == w.table[id].events + [event] && later.drivers[id].accepted == w.drivers[id].accepted + [event]
            else later == w
  {
  }
}
