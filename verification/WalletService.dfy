/** The service objects as the source has them: a last-in first-out message
    queue, the LISTEN/VALIDATE/APPLY state machine over a text store, and the
    account counter. Database writes take their outcome as a parameter. */
module WalletService {
  import opened Decimal
  import opened Bookkeeping
  import opened TextStore

  class MessageQueue<T> {
    var messages: seq<T>

    constructor ()
      ensures messages == []
    {
      messages := [];
    }

    method Send(msg: T)
      modifies this
      ensures messages == old(messages) + [msg]
    {
      messages := messages + [msg];
    }

    /** Blocks until a message is there, which is the precondition here; takes
        the message sent last. */
    method Receive() returns (msg: T)
      requires messages != []
      modifies this
      ensures old(messages) == messages + [msg]
    {
      msg := messages[|messages| - 1];
      messages := messages[..|messages| - 1];
    }
  }

  datatype Phase = Listen | Validate | Apply

  function Rank(p: Phase): nat {
    match p
    case Listen => 0
    case Validate => 2
    case Apply => 1
  }

  class Service {
    var state: Phase
    var command: Command
    var db: Store
    var log: seq<EventPair>
    const queue: MessageQueue<Command>

    constructor (stored: Store, logged: seq<EventPair>)
      ensures state == Listen && db == stored && log == logged
      ensures fresh(queue) && queue.messages == []
    {
      state := Listen;
      command := Command("", "", "", "", "");
      db := stored;
      log := logged;
      queue := new MessageQueue();
    }

    /** The text state stands for `book`. */
    ghost predicate Denotes(book: Book)
      reads this
    {
      Holds(db, book.balances) && Records(log, book.entries)
    }

    method Put(key: string, value: string, ok: bool)
      modifies `db
      ensures db == if ok then old(db)[key := value] else old(db)
    {
      if ok {
        db := db[key := value];
      }
    }

    method SetState(next: Phase)
      modifies `state
      ensures state == next
    {
      state := next;
    }

    /** `Service::toggle`: only LISTEN reacts. On a store that stands for a
        book the command sent last is carried out exactly as the ledger says,
        no number fails to parse, and the machine is back in LISTEN. */
    method Toggle(debitOk: bool, creditOk: bool, ghost book: Book) returns (threw: bool)
      requires state == Listen ==> queue.messages != []
      modifies this, queue
      ensures old(state) != Listen ==>
        !threw && state == old(state) && db == old(db) && log == old(log) && queue.messages == old(queue.messages)
      ensures old(state) == Listen ==> old(queue.messages) == queue.messages + [command]
      ensures !threw && old(state) == Listen ==> state == Listen
      ensures threw ==> db == old(db) && log == old(log)
      ensures old(state) == Listen && old(Denotes(book)) && WellFormed(command) ==>
        !threw && Denotes(Perform(book, Move(TransferOf(command), debitOk, creditOk)))
    {
      threw := false;
      if state == Listen {
        command := queue.Receive();
        SetState(Validate);
        threw := Process(debitOk, creditOk, book);
      }
    }

    /** `Service::process`: dispatch on the current state. */
    method Process(debitOk: bool, creditOk: bool, ghost book: Book) returns (threw: bool)
      modifies `state, `db, `log
      ensures !threw ==> state == Listen
      ensures old(state) == Listen ==> !threw && db == old(db) && log == old(log)
      ensures threw ==> db == old(db) && log == old(log)
      ensures old(state) == Validate && old(Denotes(book)) && WellFormed(command) ==>
        !threw && Denotes(Perform(book, Move(TransferOf(command), debitOk, creditOk)))
      ensures old(state) == Apply && old(Denotes(book)) && WellFormed(command) && Passes(book, command) ==>
        !threw && Denotes(Perform(book, Move(TransferOf(command), debitOk, creditOk)))
      decreases Rank(state), 1
    {
      match state
      case Listen => threw := false;
      case Validate => threw := ValidateCommand(debitOk, creditOk, book);
      case Apply => threw := ApplyCommand(debitOk, creditOk, book);
    }

    /** `ServiceValidate::process`. */
    method ValidateCommand(debitOk: bool, creditOk: bool, ghost book: Book) returns (threw: bool)
      requires state == Validate
      modifies `state, `db, `log
      ensures !threw ==> state == Listen
      ensures threw ==> db == old(db) && log == old(log)
      ensures old(Denotes(book)) && WellFormed(command) ==>
        !threw && Denotes(Perform(book, Move(TransferOf(command), debitOk, creditOk)))
      decreases 2, 0
    {
      hide Stoi;
      threw := false;
      if command.toAccount !in db || command.fromAccount !in db {
        SetState(Listen);
        return;
      }
      var balance, amount := Stoi(db[command.fromAccount]), Stoi(command.amount);
      if old(Denotes(book)) {
        ReadBack(db, book.balances, command.fromAccount);
      }
      if balance.None? || amount.None? {
        return true;
      }
      if balance.value < amount.value {
        SetState(Listen);
        return;
      }
      if command.action == "TRANSFER" {
        SetState(Apply);
        threw := Process(debitOk, creditOk, book);
        return;
      }
      SetState(Listen);
    }

    /** `ServiceApply::process`: both balances are read and computed before
        either is written, and the pair is logged only after both writes. */
    method ApplyCommand(debitOk: bool, creditOk: bool, ghost book: Book) returns (threw: bool)
      requires state == Apply
      modifies `state, `db, `log
      ensures !threw ==> state == Listen
      ensures threw ==> db == old(db) && log == old(log)
      ensures old(Denotes(book)) && WellFormed(command) && Passes(book, command) ==>
        !threw && Denotes(Perform(book, Move(TransferOf(command), debitOk, creditOk)))
      decreases 1, 0
    {
      hide Stoi, Wrap32, ToString;
      threw := false;
      var events := EventsOf(command);
      if events.debit.account !in db || events.credit.account !in db {
        SetState(Listen);
        return;
      }
      var balanceA, balanceB := Stoi(db[events.debit.account]), Stoi(db[events.credit.account]);
      var amount := Stoi(command.amount);
      if old(Denotes(book)) {
        ReadBack(db, book.balances, command.fromAccount);
        ReadBack(db, book.balances, command.toAccount);
      }
      if balanceA.None? || balanceB.None? || amount.None? {
        return true;
      }
      var balance1 := Wrap32(balanceA.value - amount.value);
      var balance2 := Wrap32(balanceB.value + amount.value);
      if Denotes(book) && WellFormed(command) && Passes(book, command) {
        WritesMatch(db, log, book, command, debitOk, creditOk);
      }
      WriteBoth(events, balance1, balance2, debitOk, creditOk);
    }

    /** The two writes and the log append that end APPLY. */
    method WriteBoth(events: EventPair, balance1: int, balance2: int, debitOk: bool, creditOk: bool)
      modifies `state, `db, `log
      ensures state == Listen
      ensures
        var debited := old(db)[events.debit.account := ToString(balance1)];
        db == if !debitOk then old(db) else if !creditOk then debited
              else debited[events.credit.account := ToString(balance2)]
      ensures log == if debitOk && creditOk then old(log) + [events] else old(log)
    {
      Put(events.debit.account, ToString(balance1), debitOk);
      if !debitOk {
        SetState(Listen);
        return;
      }
      Put(events.credit.account, ToString(balance2), creditOk);
      if !creditOk {
        SetState(Listen);
        return;
      }
      log := log + [events];
      SetState(Listen);
    }
  }

  /** The seed file behind `genAccountID`; `None` before the file exists. */
  class SeedFile {
    var stored: Option<nat>

    constructor ()
      ensures stored == None
    {
      stored := None;
    }

    function Count(): nat
      reads this
    {
      match stored
      case None => 0
      case Some(n) => n
    }

    method GenerateSeedFile()
      modifies this
      ensures stored == Some(old(Count()))
    {
      if stored == None {
        stored := Some(0);
      }
    }

    /** Identifiers are the formatted counter values, so no two calls agree. */
    method GenAccountId() returns (id: string)
      modifies this
      ensures stored == Some(old(Count()) + 1)
      ensures id == FormatId(Count()) && IdNumber(id) == Count()
    {
      GenerateSeedFile();
      var accountNum := Count();
      accountNum := accountNum + 1;
      stored := Some(accountNum);
      id := FormatId(accountNum);
      IdRoundTrip(accountNum);
    }
  }
}
