/** The bot's Kafka consumer loop, statement by statement. Every call is a path of the second leg's step
    machine. Unlike the agent's, this loop commits after a message went to the DLQ. */
module BotConsumer {
  import opened Records
  import BotInbox
  import PreparedLeg
  import Machines

  datatype Database = Answers | Refuses | Breaks(stored: bool)

  /** What the surroundings do at offset i. */
  datatype World = World(database: nat -> Database, now: nat -> int, dlqOk: nat -> bool, commitOk: nat -> bool)

  datatype AddError = NoError | DuplicateMsg | OtherError

  datatype KafkaHeader = KafkaHeader(key: string, value: string)

  const IDEMPOTENCY_KEY := "idempotency-key"

  predicate FirstKey(headers: seq<KafkaHeader>, i: int) {
    && 0 <= i < |headers| && headers[i].key == IDEMPOTENCY_KEY
    && forall j :: 0 <= j < i ==> headers[j].key != IDEMPOTENCY_KEY
  }

  /** findIdempKey: the first such header counts; without one the key is empty. */
  method FindIdempKey(headers: seq<KafkaHeader>) returns (key: string)
    ensures (forall i :: 0 <= i < |headers| ==> headers[i].key != IDEMPOTENCY_KEY) ==> key == ""
    ensures forall i :: FirstKey(headers, i) ==> key == headers[i].value
  {
    for i := 0 to |headers|
      invariant forall j :: 0 <= j < i ==> headers[j].key != IDEMPOTENCY_KEY
    {
      if headers[i].key == IDEMPOTENCY_KEY {
        return headers[i].value;
      }
    }
    key := "";
  }

  /** The machine's name for what an AddRecord call does. */
  function OutcomeOf(taken: bool, db: Database, dlqOk: bool): PreparedLeg.Insert {
    match db
    case Answers => if taken then PreparedLeg.Duplicate else PreparedLeg.Inserted
    case Refuses => PreparedLeg.DbError(dlqOk)
    case Breaks(stored) => PreparedLeg.Swallowed(stored && !taken)
  }

  /** The message is stored as a pending row under a new number; nothing else changes. */
  predicate Stored(before: PreparedLeg.Bot, after: PreparedLeg.Bot, m: PreparedLeg.Message, now: int)
    requires m.body.Some?
  {
    after == before.(rows := before.rows[before.next := BotInbox.Row(m.key, m.body.value, now, true)], next := before.next + 1)
  }

  /** The offset moves on past message i. */
  predicate Passes(topic: seq<PreparedLeg.Message>, world: World, i: nat)
    requires i < |topic|
  {
    (world.dlqOk(i) || (PreparedLeg.Acceptable(topic[i]) && !world.database(i).Refuses?)) && world.commitOk(i)
  }

  class KafkaConsumer {
    var reader: PreparedLeg.Reader
    var bot: PreparedLeg.Bot

    constructor (bot: PreparedLeg.Bot)
      ensures reader == PreparedLeg.Reader(0, PreparedLeg.Stopped, [], {}) && this.bot == bot
    {
      reader, this.bot := PreparedLeg.Reader(0, PreparedLeg.Stopped, [], {}), bot;
    }

    /** The machine's state with this consumer in it. */
    function Whole(rest: PreparedLeg.State): PreparedLeg.State
      reads this
    {
      rest.(reader := reader, bot := bot)
    }

    /** AddRecord: an error that is no PgError is dropped. */
    method AddRecord(m: PreparedLeg.Message, now: int, db: Database) returns (err: AddError)
      requires m.body.Some?
      modifies this`bot
      ensures var taken := BotInbox.KeyTaken(old(bot).rows, m.key);
        match db
        case Answers =>
          err == (if taken then DuplicateMsg else NoError) && if taken then bot == old(bot) else Stored(old(bot), bot, m, now)
        case Refuses => err == OtherError && bot == old(bot)
        case Breaks(stored) =>
          err == NoError && if stored && !taken then Stored(old(bot), bot, m, now) else bot == old(bot)
    {
      var taken := BotInbox.KeyTaken(bot.rows, m.key);
      match db
      case Answers =>
        if taken {
          return DuplicateMsg;
        }
        bot := bot.(rows := bot.rows[bot.next := BotInbox.Row(m.key, m.body.value, now, true)], next := bot.next + 1);
        err := NoError;
      case Refuses => err := OtherError;
      case Breaks(stored) =>
        if stored && !taken {
          bot := bot.(rows := bot.rows[bot.next := BotInbox.Row(m.key, m.body.value, now, true)], next := bot.next + 1);
        }
        err := NoError;
    }

    /** sendDLQ. */
    method SendDLQ(m: PreparedLeg.Message, dlqOk: bool) returns (failed: bool)
      modifies this`reader
      ensures failed == !dlqOk && reader == PreparedLeg.DeadLetter(old(reader), m, dlqOk)
      ensures reader.dlq == (if dlqOk then old(reader).dlq + [m] else old(reader).dlq)
      ensures if dlqOk then reader.consumer.Handled? else reader.consumer.Stopped?
      ensures reader.committed == old(reader).committed && reader.silenced == old(reader).silenced
    {
      failed := !dlqOk;
      if dlqOk {
        reader := reader.(consumer := PreparedLeg.Handled, dlq := reader.dlq + [m]);
      } else {
        reader := reader.(consumer := PreparedLeg.Stopped);
      }
    }

    /** processMessage; failed tells whether it returns an error, which ends the loop. */
    method ProcessMessage(rest: PreparedLeg.State, world: World) returns (failed: bool, ghost act: PreparedLeg.Action)
      requires reader.consumer.Fetching? && reader.committed < |rest.topic|
      modifies this
      ensures PreparedLeg.Enabled(old(Whole(rest)), act) && Whole(rest) == PreparedLeg.Apply(old(Whole(rest)), act)
      ensures reader.committed == old(reader.committed)
      ensures if failed then reader.consumer.Stopped? else reader.consumer.Handled?
      ensures var i := reader.committed;
        failed <==> !world.dlqOk(i) && (!PreparedLeg.Acceptable(rest.topic[i]) || world.database(i).Refuses?)
    {
      var i := reader.committed;
      var m := rest.topic[i];
      if !PreparedLeg.Acceptable(m) {
        act := PreparedLeg.Reject(world.dlqOk(i));
        failed := SendDLQ(m, world.dlqOk(i));
        return;
      }
      act := PreparedLeg.Add(OutcomeOf(BotInbox.KeyTaken(bot.rows, m.key), world.database(i), world.dlqOk(i)), world.now(i));
      var err := AddRecord(m, world.now(i), world.database(i));
      if err.OtherError? {
        failed := SendDLQ(m, world.dlqOk(i));
      } else {
        failed := false;
        reader := reader.(consumer := PreparedLeg.Handled,
                          silenced := if world.database(i).Breaks? then reader.silenced + {i} else reader.silenced);
      }
    }

    /** CommitMessages. */
    method Commit(rest: PreparedLeg.State, world: World) returns (ok: bool, ghost act: PreparedLeg.Action)
      requires reader.consumer.Handled?
      modifies this`reader
      ensures PreparedLeg.Enabled(old(Whole(rest)), act) && Whole(rest) == PreparedLeg.Apply(old(Whole(rest)), act)
      ensures ok == world.commitOk(old(reader.committed))
      ensures reader.committed == old(reader.committed) + if ok then 1 else 0
      ensures if ok then reader.consumer.Fetching? else reader.consumer.Stopped?
    {
      ok := world.commitOk(reader.committed);
      if ok {
        act := PreparedLeg.CommitOffset;
        reader := reader.(consumer := PreparedLeg.Fetching, committed := reader.committed + 1);
      } else {
        act := PreparedLeg.Stop;
        reader := reader.(consumer := PreparedLeg.Stopped);
      }
    }

    /** One round of PostUpdates. */
    method Round(rest: PreparedLeg.State, world: World)
      returns (more: bool, ghost acts: seq<PreparedLeg.Action>, ghost trace: seq<PreparedLeg.State>)
      requires reader.consumer.Fetching? && reader.committed < |rest.topic|
      modifies this
      ensures PreparedLeg.Path(trace, acts) && trace[0] == old(Whole(rest)) && trace[|acts|] == Whole(rest)
      ensures reader.committed == old(reader.committed) + if more then 1 else 0
      ensures if more then reader.consumer.Fetching? else reader.consumer.Stopped?
      ensures var i := old(reader.committed); more <==>
        (world.dlqOk(i) || (PreparedLeg.Acceptable(rest.topic[i]) && !world.database(i).Refuses?)) && world.commitOk(i)
    {
      ghost var act, s0 := PreparedLeg.Stop, Whole(rest);
      var failed;
      failed, act := ProcessMessage(rest, world);
      acts, trace := [act], [s0, Whole(rest)];
      Machines.PathOne(PreparedLeg.Steps, s0, act, Whole(rest));
      if failed {
        return false, acts, trace;
      }
      ghost var s1 := Whole(rest);
      more, act := Commit(rest, world);
      Machines.PathOne(PreparedLeg.Steps, s1, act, Whole(rest));
      Machines.PathConcat(PreparedLeg.Steps, trace, acts, [s1, Whole(rest)], [act]);
      acts, trace := acts + [act], trace + [s1, Whole(rest)][1..];
    }

    /** PostUpdates until the topic is read or the loop returns: the offset ends on the first message that
        can neither be recorded nor dead-lettered, or whose commit fails. */
    method PostUpdates(rest: PreparedLeg.State, world: World)
      returns (ghost acts: seq<PreparedLeg.Action>, ghost trace: seq<PreparedLeg.State>)
      requires reader.consumer.Fetching? && reader.committed <= |rest.topic|
      modifies this
      ensures PreparedLeg.Path(trace, acts) && trace[0] == old(Whole(rest)) && trace[|acts|] == Whole(rest)
      ensures old(reader.committed) <= reader.committed <= |rest.topic|
      ensures forall i :: old(reader.committed) <= i < reader.committed ==> Passes(rest.topic, world, i)
      ensures reader.committed < |rest.topic| ==> !Passes(rest.topic, world, reader.committed)
    {
      acts, trace := [], [Whole(rest)];
      var more := true;
      while more && reader.committed < |rest.topic|
        invariant old(reader.committed) <= reader.committed <= |rest.topic|
        invariant PreparedLeg.Path(trace, acts) && trace[0] == old(Whole(rest)) && trace[|acts|] == Whole(rest)
        invariant more ==> reader.consumer.Fetching?
        invariant forall i :: old(reader.committed) <= i < reader.committed ==> Passes(rest.topic, world, i)
        invariant !more ==> reader.committed < |rest.topic| && !Passes(rest.topic, world, reader.committed)
        decreases more, |rest.topic| - reader.committed
      {
        ghost var a, t;
        more, a, t := Round(rest, world);
        Machines.PathConcat(PreparedLeg.Steps, trace, acts, t, a);
        acts, trace := acts + a, trace + t[1..];
      }
    }
  }
}
