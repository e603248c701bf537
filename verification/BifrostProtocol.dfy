/** The bridge as a whole: any number of servers, whose listeners, pollers and requests share one database, take their
    steps in any order, and stop anywhere. A step is what happens up to and with one call of the database. */
module BifrostProtocol {
  import opened BifrostHandling
  import opened BifrostTables

  /** What is the same for all servers. */
  datatype Config = Config(minimumSat: int, minimumWei: int, generate: Generator, accepts: string -> bool) {
    function Minimum(chain: Chain): int {
      match chain
      case Bitcoin => minimumSat
      case Ethereum => minimumWei
    }
  }

  /** Where a listener is in its loop, and with which deposit of the block it is busy. */
  datatype Place =
    | Waiting
    | Handling(block: Block, next: nat)
    | Adding(block: Block, next: nat, to: Association)
    | Queueing(block: Block, next: nat, to: Association)
    | Saving(block: Block)
  {
    predicate Busy() {
      (Handling? || Adding? || Queueing?) && next < |block.deposits|
    }

    function Deposit(): Deposit
      requires Busy()
    {
      block.deposits[next]
    }
  }

  datatype Process =
    | Listener(chain: Chain, cursor: nat, place: Place)
    | Request(chain: Chain, publicKey: string)
    | Binding(chain: Chain, publicKey: string, index: nat)

  /** A transaction and its asset, as the queue knows them. */
  datatype Payment = Payment(txId: string, asset: AssetCode)

  datatype Delivery = Delivery(chain: Chain, deposit: Deposit)

  datatype BlockOf = BlockOf(chain: Chain, number: nat)

  datatype IndexOf = IndexOf(chain: Chain, index: nat)

  /** What happened so far: the deposits that listeners were given; those whose handler found no association; those
      whose handler found one and returned without error; the deposits of blocks that were handled without error, and
      the numbers of these blocks; the payments that QueuePool returned; the keys recorded as processed whose row never
      got into the queue; the indices handed out. */
  datatype History = History(
    delivered: set<Delivery>,
    missed: set<Delivery>,
    served: set<Delivery>,
    finished: set<Delivery>,
    handled: set<BlockOf>,
    returned: seq<Payment>,
    lost: set<TxKey>,
    issued: seq<IndexOf>)

  datatype System = System(db: Tables, processes: map<nat, Process>, history: History)

  const START := System(EMPTY, map[], History({}, {}, {}, {}, {}, [], {}, []))

  datatype Step =
    | StartListener(pid: nat, chain: Chain, count: nat)
    | Fetch(pid: nat, block: Block)
    | SkipSmall(pid: nat)
    | LookUp(pid: nat, outcome: Outcome)
    | Add(pid: nat, outcome: Outcome)
    | QueueAdd(pid: nat, outcome: Outcome)
    | FinishBlock(pid: nat)
    | Save(pid: nat, outcome: Outcome)
    | QueuePool(outcome: Outcome)
    | StartRequest(pid: nat, chain: Chain, publicKey: string)
    | TakeIndex(pid: nat, outcome: Outcome)
    | Bind(pid: nat, outcome: Outcome)
    | Crash(pid: nat)

  predicate ListenerAt(s: System, pid: nat) {
    pid in s.processes && s.processes[pid].Listener?
  }

  predicate BusyAt(s: System, pid: nat) {
    ListenerAt(s, pid) && s.processes[pid].place.Busy()
  }

  /** The clients give the block they are asked for. Ethereum's client gives its latest block when it is asked for block
      zero; while it says that this is block zero, the listener waits. */
  predicate Answers(chain: Chain, cursor: nat, block: Block) {
    match chain
    case Bitcoin => block.number == cursor
    case Ethereum => block.number > 0 && (cursor > 0 ==> block.number == cursor)
  }

  predicate Enabled(c: Config, s: System, step: Step) {
    match step
    case StartListener(pid, _, _) => pid !in s.processes
    case Fetch(pid, block) => ListenerAt(s, pid) && s.processes[pid].place.Waiting?
      && Answers(s.processes[pid].chain, s.processes[pid].cursor, block)
    case SkipSmall(pid) => BusyAt(s, pid) && s.processes[pid].place.Handling?
      && s.processes[pid].place.Deposit().value < c.Minimum(s.processes[pid].chain)
    case LookUp(pid, _) => BusyAt(s, pid) && s.processes[pid].place.Handling?
      && s.processes[pid].place.Deposit().value >= c.Minimum(s.processes[pid].chain)
    case Add(pid, _) => BusyAt(s, pid) && s.processes[pid].place.Adding?
    case QueueAdd(pid, _) => BusyAt(s, pid) && s.processes[pid].place.Queueing?
    case FinishBlock(pid) => ListenerAt(s, pid) && s.processes[pid].place.Handling? && !s.processes[pid].place.Busy()
    case Save(pid, _) => ListenerAt(s, pid) && s.processes[pid].place.Saving?
    case QueuePool(_) => true
    case StartRequest(pid, _, publicKey) => pid !in s.processes && c.accepts(publicKey)
    case TakeIndex(pid, _) => pid in s.processes && s.processes[pid].Request?
    case Bind(pid, _) => pid in s.processes && s.processes[pid].Binding?
    case Crash(pid) => pid in s.processes
  }

  /** The system with a listener at another place. */
  function At(s: System, pid: nat, place: Place): System
    requires ListenerAt(s, pid)
  {
    s.(processes := s.processes[pid := s.processes[pid].(place := place)])
  }

  function Gone(s: System, pid: nat): System {
    s.(processes := s.processes - {pid})
  }

  function Current(p: Process): TxKey
    requires p.Listener? && p.place.Busy()
  {
    KeyOf(p.chain, p.place.Deposit())
  }

  /** The deposit is recorded as processed and the row for it is not yet in the queue. */
  predicate IsPending(p: Process) {
    p.Listener? && p.place.Queueing? && p.place.Busy()
  }

  function Lose(s: System, key: TxKey): System {
    s.(history := s.history.(lost := s.history.lost + {key}))
  }

  function Serve(s: System, p: Process): System
    requires p.Listener? && p.place.Busy()
  {
    s.(history := s.history.(served := s.history.served + {Delivery(p.chain, p.place.Deposit())}))
  }

  function Miss(s: System, p: Process): System
    requires p.Listener? && p.place.Busy()
  {
    s.(history := s.history.(missed := s.history.missed + {Delivery(p.chain, p.place.Deposit())}))
  }

  function Deliveries(chain: Chain, ds: seq<Deposit>): set<Delivery> {
    set d | d in ds :: Delivery(chain, d)
  }

  function Continue(s: System, pid: nat): System
    requires BusyAt(s, pid)
  {
    At(s, pid, Handling(s.processes[pid].place.block, s.processes[pid].place.next + 1))
  }

  function AfterLookUp(s: System, pid: nat, outcome: Outcome): System
    requires BusyAt(s, pid) && s.processes[pid].place.Handling?
  {
    var p := s.processes[pid];
    if !outcome.Done? then At(s, pid, Waiting)
    else match FindIn(s.db.associations, p.chain, p.place.Deposit().to)
      case None => Continue(Miss(s, p), pid)
      case Some(a) => At(s, pid, Adding(p.place.block, p.place.next, a))
  }

  function AfterAdd(s: System, pid: nat, outcome: Outcome): System
    requires BusyAt(s, pid) && s.processes[pid].place.Adding?
  {
    var p := s.processes[pid];
    var key := Current(p);
    var added := s.(db := AddProcessed(s.db, key, p.place.Deposit().to));
    match outcome
    case FailedBefore => At(s, pid, Waiting)
    case FailedAfter => At(if IsProcessed(s.db, key) then added else Lose(added, key), pid, Waiting)
    case Done =>
      if IsProcessed(s.db, key) then Continue(Serve(s, p), pid)
      else At(added, pid, Queueing(p.place.block, p.place.next, p.place.to))
  }

  function AfterQueueAdd(s: System, pid: nat, outcome: Outcome): System
    requires BusyAt(s, pid) && s.processes[pid].place.Queueing?
  {
    var p := s.processes[pid];
    var queued := s.(db := Enqueue(s.db, RowFor(p.chain, p.place.Deposit(), p.place.to.publicKey)));
    match outcome
    case FailedBefore => At(Lose(s, Current(p)), pid, Waiting)
    case FailedAfter => At(queued, pid, Waiting)
    case Done => Continue(Serve(queued, p), pid)
  }

  function AfterFinish(s: System, pid: nat): System
    requires ListenerAt(s, pid) && s.processes[pid].place.Handling?
  {
    var p := s.processes[pid];
    var block := p.place.block;
    At(s.(history := s.history.(handled := s.history.handled + {BlockOf(p.chain, block.number)},
                                finished := s.history.finished + Deliveries(p.chain, block.deposits))),
       pid, Saving(block))
  }

  function AfterPool(s: System, outcome: Outcome): System {
    var head := HeadOf(s.db.queue);
    if outcome.FailedBefore? then s
    else
      var pooled := s.(db := Pool(s.db));
      if outcome.FailedAfter? || head.None? then pooled
      else
        var row := s.db.queue[head.value];
        pooled.(history := s.history.(returned := s.history.returned + [Payment(row.txId, row.asset)]))
  }

  function AfterTake(s: System, pid: nat, outcome: Outcome): System
    requires pid in s.processes && s.processes[pid].Request?
  {
    var p := s.processes[pid];
    var index := IndexAfter(s.db, p.chain);
    if outcome.FailedBefore? || s.db.indices.Of(p.chain) >= UINT32 then Gone(s, pid)
    else
      var taken := s.(db := IncrementIndex(s.db, p.chain));
      if outcome.FailedAfter? then Gone(taken, pid)
      else taken.(processes := s.processes[pid := Binding(p.chain, p.publicKey, index)],
                  history := s.history.(issued := s.history.issued + [IndexOf(p.chain, index)]))
  }

  function AfterBind(c: Config, s: System, pid: nat, outcome: Outcome): System
    requires pid in s.processes && s.processes[pid].Binding?
  {
    var p := s.processes[pid];
    match c.generate(p.chain, p.index)
    case None => Gone(s, pid)
    case Some(address) =>
      if outcome.FailedBefore? then Gone(s, pid)
      else Gone(s.(db := Associate(s.db, Association(p.chain, p.index, address, p.publicKey))), pid)
  }

  function After(c: Config, s: System, step: Step): System
    requires Enabled(c, s, step)
  {
    match step
    case StartListener(pid, chain, count) =>
      var saved := BlockToProcess(s.db, chain);
      s.(processes := s.processes[pid :=
           Listener(chain, if chain.Bitcoin? && saved == 0 then count else saved, Waiting)])
    case Fetch(pid, block) =>
      At(s.(history := s.history.(delivered :=
              s.history.delivered + Deliveries(s.processes[pid].chain, block.deposits))),
         pid, Handling(block, 0))
    case SkipSmall(pid) => Continue(s, pid)
    case LookUp(pid, outcome) => AfterLookUp(s, pid, outcome)
    case Add(pid, outcome) => AfterAdd(s, pid, outcome)
    case QueueAdd(pid, outcome) => AfterQueueAdd(s, pid, outcome)
    case FinishBlock(pid) => AfterFinish(s, pid)
    case Save(pid, outcome) =>
      var p := s.processes[pid];
      s.(db := SaveIf(s.db, p.chain, p.cursor, outcome),
         processes := s.processes[pid := Listener(p.chain, p.place.block.number + 1, Waiting)])
    case QueuePool(outcome) => AfterPool(s, outcome)
    case StartRequest(pid, chain, publicKey) => s.(processes := s.processes[pid := Request(chain, publicKey)])
    case TakeIndex(pid, outcome) => AfterTake(s, pid, outcome)
    case Bind(pid, outcome) => AfterBind(c, s, pid, outcome)
    case Crash(pid) =>
      var p := s.processes[pid];
      Gone(if IsPending(p) then Lose(s, Current(p)) else s, pid)
  }

  /** A run: every step can be taken where the steps before it lead. */
  predicate Runs(c: Config, s: System, steps: seq<Step>)
    decreases steps
  {
    steps == [] || (Enabled(c, s, steps[0]) && Runs(c, After(c, s, steps[0]), steps[1..]))
  }

  function Last(c: Config, s: System, steps: seq<Step>): System
    requires Runs(c, s, steps)
    decreases steps
  {
    if steps == [] then s else Last(c, After(c, s, steps[0]), steps[1..])
  }

  lemma RunOne(c: Config, s: System, step: Step, rest: seq<Step>)
    requires Enabled(c, s, step) && Runs(c, After(c, s, step), rest)
    ensures Runs(c, s, [step] + rest) && Last(c, s, [step] + rest) == Last(c, After(c, s, step), rest)
  {
    assert ([step] + rest)[1..] == rest;
  }

  lemma {:induction false} RunConcat(c: Config, s: System, a: seq<Step>, b: seq<Step>)
    requires Runs(c, s, a) && Runs(c, Last(c, s, a), b)
    ensures Runs(c, s, a + b) && Last(c, s, a + b) == Last(c, Last(c, s, a), b)
    decreases a
  {
    if a == [] {
      assert a + b == b;
    } else {
      RunConcat(c, After(c, s, a[0]), a[1..], b);
      assert (a + b)[1..] == a[1..] + b;
    }
  }

  /** What the history says was delivered, and handled without error: the blocks that were fetched, and those that were
      finished. */
  lemma HistoryOfBlocks(c: Config, s: System, step: Step)
    requires Enabled(c, s, step)
    ensures After(c, s, step).history.delivered == s.history.delivered
      + if step.Fetch? then Deliveries(s.processes[step.pid].chain, step.block.deposits) else {}
    ensures After(c, s, step).history.handled == s.history.handled
      + if step.FinishBlock? then {BlockOf(s.processes[step.pid].chain, s.processes[step.pid].place.block.number)}
        else {}
    ensures After(c, s, step).history.finished == s.history.finished
      + if step.FinishBlock? then Deliveries(s.processes[step.pid].chain, s.processes[step.pid].place.block.deposits)
        else {}
  {
  }

  /** A step changes no process but its own. */
  lemma OtherProcessesStay(c: Config, s: System, step: Step, q: nat)
    requires Enabled(c, s, step) && q in After(c, s, step).processes && (step.QueuePool? || step.pid != q)
    ensures q in s.processes && After(c, s, step).processes[q] == s.processes[q]
  {
  }

  /** Only two steps change the queue. */
  lemma SameQueue(c: Config, s: System, step: Step)
    requires Enabled(c, s, step) && !step.QueuePool? && !step.QueueAdd?
    ensures After(c, s, step).db.queue == s.db.queue && After(c, s, step).history.returned == s.history.returned
  {
  }
}
