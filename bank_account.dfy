/**
 * The bank-account aggregate: an account's balance and generation rebuilt by
 * folding the events of its stream from a zero seed, deposit and withdrawal
 * commands decided against that state, and a batch of commands turned into
 * the events to append.
 *
 * Everything here is a value: applying an event returns a new account, and
 * the fold and the batch are recursive functions.
 */
module BankAccount {
  import opened Wrappers

  /** A correlation identifier (`Uuid`); only stored and compared. */
  type Uuid(==)

  /** The body of both events (`FundsWithdrawnPayload` and
      `FundsDepositedPayload` have the same fields). */
  datatype FundsPayload = FundsPayload(accountId: string, amount: nat, correlation: Uuid)

  datatype BankEvent =
    | FundsWithdrawn(payload: FundsPayload)
    | FundsDeposited(payload: FundsPayload)

  datatype BankCommand =
    | WithdrawFunds(accountId: string, amount: nat)
    | DepositFunds(accountId: string, amount: nat)

  /** A command together with the correlation its event will carry. */
  datatype Command = Command(correlation: Uuid, tpe: BankCommand)

  datatype AccountData = AccountData(accountId: string, balance: int, generation: nat)

  datatype AccountErrorType = NotEnoughFunds

  datatype AccountError = AccountError(correlation: Uuid, tpe: AccountErrorType)

  /** The seed of an account with no history. */
  function New(id: string): (a: AccountData)
    ensures a.accountId == id && a.balance == 0 && a.generation == 0
  {
    AccountData(id, 0, 0)
  }

  /** The account after one event: one more generation, the amount taken
      from or added to the balance, the same account id. */
  function ApplyBankEvent(a: AccountData, e: BankEvent): (r: AccountData)
    ensures r.accountId == a.accountId
    ensures r.generation == a.generation + 1
  {
    match e
    case FundsWithdrawn(p) =>
      a.(balance := a.balance - p.amount, generation := a.generation + 1)
    case FundsDeposited(p) =>
      a.(balance := a.balance + p.amount, generation := a.generation + 1)
  }

  /** Decides a command against the account. A deposit is always accepted; a
      withdrawal is rejected exactly when it would take the balance below zero.
      `random` stands for the fresh `Uuid` drawn for a rejection. The account
      id of the command is not compared with the account's. */
  function HandleBankCommand(a: AccountData, cmd: Command, random: Uuid): (r: Result<BankEvent, AccountError>)
    ensures cmd.tpe.DepositFunds? ==>
      r == Ok(FundsDeposited(FundsPayload(cmd.tpe.accountId, cmd.tpe.amount, cmd.correlation)))
    ensures cmd.tpe.WithdrawFunds? ==> (r.Err? <==> a.balance - cmd.tpe.amount < 0)
    ensures cmd.tpe.WithdrawFunds? && r.Ok? ==>
      r.value == FundsWithdrawn(FundsPayload(cmd.tpe.accountId, cmd.tpe.amount, cmd.correlation))
    ensures r.Err? ==> r.error.tpe == NotEnoughFunds
  {
    match cmd.tpe
    case DepositFunds(accountId, amount) =>
      Ok(FundsDeposited(FundsPayload(accountId, amount, cmd.correlation)))
    case WithdrawFunds(accountId, amount) =>
      if a.balance - amount < 0 then
        Err(AccountError(random, NotEnoughFunds))
      else
        Ok(FundsWithdrawn(FundsPayload(accountId, amount, cmd.correlation)))
  }

  /** The projection: `ApplyBankEvent` folded over the events in order,
      starting from `seed`. */
  function Project(seed: AccountData, events: seq<BankEvent>): (r: AccountData)
    ensures r.accountId == seed.accountId
    ensures r.generation == seed.generation + |events|
  {
    if events == [] then seed
    else ApplyBankEvent(Project(seed, events[..|events| - 1]), events[|events| - 1])
  }

  /** The total deposited by `events`. */
  function Deposited(events: seq<BankEvent>): nat
  {
    if events == [] then 0
    else
      var last := events[|events| - 1];
      Deposited(events[..|events| - 1]) + (if last.FundsDeposited? then last.payload.amount else 0)
  }

  /** The total withdrawn by `events`. */
  function Withdrawn(events: seq<BankEvent>): nat
  {
    if events == [] then 0
    else
      var last := events[|events| - 1];
      Withdrawn(events[..|events| - 1]) + (if last.FundsWithdrawn? then last.payload.amount else 0)
  }

  /** The batch driver: every command is decided against the same `account`;
      rejected commands are dropped and the accepted events keep input order.
      `random[i]` is the `Uuid` drawn if command `i` is rejected. */
  function Batch(account: AccountData, cmds: seq<Command>, random: seq<Uuid>): (events: seq<BankEvent>)
    requires |random| == |cmds|
    ensures |events| <= |cmds|
  {
    if cmds == [] then []
    else
      var first := match HandleBankCommand(account, cmds[0], random[0])
        case Ok(e) => [e]
        case Err(_) => [];
      first + Batch(account, cmds[1..], random[1..])
  }

  // ---------------------------------------------------------------------------
  // Event type tags: the variant <-> tag table of the stream's codec.

  /** The tag an event is stored under. */
  function EventType(e: BankEvent): (tag: string)
    ensures tag == "funds-withdrawn" || tag == "funds-deposited"
  {
    match e
    case FundsWithdrawn(_) => "funds-withdrawn"
    case FundsDeposited(_) => "funds-deposited"
  }

  /** Decodes a stored event from its tag and body; `None` for any other tag. */
  function FromEventType(tag: string, body: FundsPayload): (r: Option<BankEvent>)
    ensures r.Some? <==> tag == "funds-withdrawn" || tag == "funds-deposited"
    ensures r.Some? ==> EventType(r.value) == tag && r.value.payload == body
  {
    match tag
    case "funds-withdrawn" => Some(FundsWithdrawn(body))
    case "funds-deposited" => Some(FundsDeposited(body))
    case _ => None
  }

  /** Every event decodes back from its tag and body. */
  lemma EventTypeRoundTrip(e: BankEvent)
    ensures FromEventType(EventType(e), e.payload) == Some(e)
  {
  }

  // ---------------------------------------------------------------------------
  // Properties

  /** Applying an accepted withdrawal to a non-negative balance leaves it
      non-negative. */
  lemma AcceptedWithdrawalKeepsBalance(a: AccountData, cmd: Command, random: Uuid)
    requires a.balance >= 0
    requires HandleBankCommand(a, cmd, random).Ok?
    ensures ApplyBankEvent(a, HandleBankCommand(a, cmd, random).value).balance >= 0
  {
  }

  /** An accepted command, once applied, moves the balance by exactly its
      amount: up for a deposit, down for a withdrawal. */
  lemma AcceptedCommandTakesEffect(a: AccountData, cmd: Command, random: Uuid)
    requires HandleBankCommand(a, cmd, random).Ok?
    ensures ApplyBankEvent(a, HandleBankCommand(a, cmd, random).value).balance ==
      if cmd.tpe.DepositFunds? then a.balance + cmd.tpe.amount else a.balance - cmd.tpe.amount
  {
  }

  /** Folding events moves the generation by their number and the balance by
      deposits minus withdrawals, and keeps the account id. */
  lemma {:induction false} ProjectTotals(seed: AccountData, events: seq<BankEvent>)
    ensures Project(seed, events).accountId == seed.accountId
    ensures Project(seed, events).generation == seed.generation + |events|
    ensures Project(seed, events).balance == seed.balance + Deposited(events) - Withdrawn(events)
  {
    if events != [] {
      ProjectTotals(seed, events[..|events| - 1]);
    }
  }

  /** From a new account, the generation is the number of events replayed and
      the balance is deposits minus withdrawals; no events give the seed. */
  lemma ProjectFromNew(id: string, events: seq<BankEvent>)
    ensures Project(New(id), events).accountId == id
    ensures Project(New(id), events).generation == |events|
    ensures Project(New(id), events).balance == Deposited(events) - Withdrawn(events)
    ensures events == [] ==> Project(New(id), events) == New(id)
  {
    ProjectTotals(New(id), events);
  }

  /** Projecting a longer history is projecting its prefix, then the rest. */
  lemma {:induction false} ProjectConcat(seed: AccountData, e1: seq<BankEvent>, e2: seq<BankEvent>)
    ensures Project(seed, e1 + e2) == Project(Project(seed, e1), e2)
  {
    if e2 == [] {
      assert e1 + e2 == e1;
    } else {
      ProjectConcat(seed, e1, e2[..|e2| - 1]);
      assert (e1 + e2)[..|e1 + e2| - 1] == e1 + e2[..|e2| - 1];
    }
  }

  /** The commands of a batch do not see each other: the batch of a
      concatenation is the concatenation of the batches. */
  lemma {:induction false} BatchConcat(account: AccountData, c1: seq<Command>, c2: seq<Command>,
                                       r1: seq<Uuid>, r2: seq<Uuid>)
    requires |r1| == |c1| && |r2| == |c2|
    ensures Batch(account, c1 + c2, r1 + r2) == Batch(account, c1, r1) + Batch(account, c2, r2)
  {
    if c1 != [] {
      BatchConcat(account, c1[1..], c2, r1[1..], r2);
      assert (c1 + c2)[1..] == c1[1..] + c2;
      assert (r1 + r2)[1..] == r1[1..] + r2;
    } else {
      assert c1 + c2 == c2 && r1 + r2 == r2;
    }
  }

  /** A batch of one command: its event if accepted, nothing if rejected. */
  lemma BatchOne(account: AccountData, cmd: Command, random: Uuid)
    ensures Batch(account, [cmd], [random]) ==
      if HandleBankCommand(account, cmd, random).Ok? then [HandleBankCommand(account, cmd, random).value] else []
  {
  }

  /** The correlations drawn for rejections never reach the batch's events. */
  lemma {:induction false} BatchIgnoresRandom(account: AccountData, cmds: seq<Command>,
                                              r1: seq<Uuid>, r2: seq<Uuid>)
    requires |r1| == |cmds| && |r2| == |cmds|
    ensures Batch(account, cmds, r1) == Batch(account, cmds, r2)
  {
    if cmds != [] {
      BatchIgnoresRandom(account, cmds[1..], r1[1..], r2[1..]);
    }
  }

  /** Each withdrawal in a batch is checked against the snapshot's balance
      alone: every withdrawn amount the batch emits is within it. */
  lemma {:induction false} BatchWithdrawalsWithinSnapshot(account: AccountData, cmds: seq<Command>, random: seq<Uuid>)
    requires |random| == |cmds|
    ensures forall e :: e in Batch(account, cmds, random) && e.FundsWithdrawn? ==>
      e.payload.amount <= account.balance
  {
    if cmds != [] {
      BatchWithdrawalsWithinSnapshot(account, cmds[1..], random[1..]);
    }
  }

  /** The batch of `main` on an empty stream: the deposit of 3000 is accepted
      and the withdrawal of 500 is rejected, since the snapshot's balance is
      still zero. */
  lemma MainBatchOnEmptyHistory(id: string, c1: Uuid, c2: Uuid, r1: Uuid, r2: Uuid)
    ensures
      var cmds := [Command(c1, DepositFunds(id, 3000)), Command(c2, WithdrawFunds(id, 500))];
      var account := Project(New(id), []);
      Batch(account, cmds, [r1, r2]) == [FundsDeposited(FundsPayload(id, 3000, c1))]
  {
    var cmds := [Command(c1, DepositFunds(id, 3000)), Command(c2, WithdrawFunds(id, 500))];
    BatchConcat(New(id), cmds[..1], cmds[1..], [r1], [r2]);
    assert cmds[..1] + cmds[1..] == cmds;
  }

  /** Two withdrawals of the whole balance in one batch are both accepted, and
      replaying them takes the balance below zero: the non-negative guard
      holds per command, not across a batch. */
  lemma StaleBatchCanOverdraw(id: string, c1: Uuid, c2: Uuid, r1: Uuid, r2: Uuid)
    ensures
      var account := Project(New(id), [FundsDeposited(FundsPayload(id, 500, c1))]);
      var cmds := [Command(c1, WithdrawFunds(id, 500)), Command(c2, WithdrawFunds(id, 500))];
      var events := Batch(account, cmds, [r1, r2]);
      account.balance == 500 && |events| == 2 && Project(account, events).balance == -500
  {
    var seedEvents := [FundsDeposited(FundsPayload(id, 500, c1))];
    assert seedEvents[..0] == [];
    assert Project(New(id), seedEvents[..0]) == New(id);
    var account := Project(New(id), seedEvents);
    assert account.balance == 500;
    var cmds := [Command(c1, WithdrawFunds(id, 500)), Command(c2, WithdrawFunds(id, 500))];
    BatchConcat(account, cmds[..1], cmds[1..], [r1], [r2]);
    assert cmds[..1] + cmds[1..] == cmds;
    BatchOne(account, cmds[0], r1);
    BatchOne(account, cmds[1], r2);
    var events := Batch(account, cmds, [r1, r2]);
    assert events == [FundsWithdrawn(FundsPayload(id, 500, c1)), FundsWithdrawn(FundsPayload(id, 500, c2))];
    assert events[..1] == [events[0]];
    assert events[..1][..0] == [];
    ProjectTotals(account, events);
    assert Withdrawn(events[..1]) == 500 && Deposited(events[..1]) == 0;
  }
}
