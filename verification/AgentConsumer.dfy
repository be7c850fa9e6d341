/** The agent's Kafka consumer loop, statement by statement. Every call is a path of the first leg's step
    machine, so what holds of all its runs holds whatever the loop does. */
module AgentConsumer {
  import opened Records
  import AgentInbox
  import RawLeg
  import Machines

  /** How the database treats an INSERT: it answers, it reports a PgError, or the error is of another kind
      (a lost connection, say) and the row may have been stored. */
  datatype Database = Answers | Refuses | Breaks(stored: bool)

  /** What the surroundings do at offset i. */
  datatype World = World(database: nat -> Database, now: nat -> int, dlqOk: nat -> bool, commitOk: nat -> bool)

  datatype AddError = NoError | DuplicateMsg | OtherError

  /** The machine's name for what an AddRecord call does. */
  function OutcomeOf(taken: bool, db: Database, dlqOk: bool): RawLeg.Insert {
    match db
    case Answers => if taken then RawLeg.Duplicate else RawLeg.Inserted
    case Refuses => RawLeg.DbError(dlqOk)
    case Breaks(stored) => RawLeg.Swallowed(stored && !taken)
  }

  /** The update is stored as a pending row under a new number; nothing else changes. */
  ghost predicate Stored(before: AgentInbox.Table, after: AgentInbox.Table, u: RawUpdate, now: int) {
    after == before.(rows := before.rows[before.next := AgentInbox.Row(u, now, true)], next := before.next + 1)
  }

  class KafkaConsumer {
    var reader: RawLeg.Reader
    var agent: AgentInbox.Table

    constructor (agent: AgentInbox.Table)
      ensures reader == RawLeg.Reader(0, RawLeg.Stopped, [], {}) && this.agent == agent
    {
      reader, this.agent := RawLeg.Reader(0, RawLeg.Stopped, [], {}), agent;
    }

    /** The machine's state with this consumer in it. */
    function Whole(rest: RawLeg.State): RawLeg.State
      reads this
    {
      rest.(reader := reader, agent := agent)
    }

    /** AddRecord: an error that is no PgError is dropped. */
    method AddRecord(u: RawUpdate, now: int, db: Database) returns (err: AddError)
      modifies this`agent
      ensures var taken := AgentInbox.HasId(old(agent).rows, u.id);
        match db
        case Answers =>
          && err == (if taken then DuplicateMsg else NoError)
          && (if taken then agent == old(agent) else Stored(old(agent), agent, u, now))
        case Refuses => err == OtherError && agent == old(agent)
        case Breaks(stored) =>
          err == NoError && if stored && !taken then Stored(old(agent), agent, u, now) else agent == old(agent)
    {
      var taken := AgentInbox.HasId(agent.rows, u.id);
      match db
      case Answers =>
        if taken {
          return DuplicateMsg;
        }
        agent := AgentInbox.Add(agent, u, now);
        err := NoError;
      case Refuses => err := OtherError;
      case Breaks(stored) =>
        if stored && !taken {
          agent := AgentInbox.Add(agent, u, now);
        }
        err := NoError;
    }

    /** handleFailure: to the DLQ, and out of the loop. */
    method HandleFailure(m: RawLeg.Message, dlqOk: bool)
      modifies this`reader
      ensures reader == RawLeg.Fail(old(reader), m, dlqOk)
      ensures reader.dlq == (if dlqOk then old(reader).dlq + [m] else old(reader).dlq) && reader.consumer.Stopped?
      ensures reader.committed == old(reader).committed && reader.silenced == old(reader).silenced
    {
      if dlqOk {
        reader := reader.(dlq := reader.dlq + [m]);
      }
      reader := reader.(consumer := RawLeg.Stopped);
    }

    /** decodeMessage or Validate fails. */
    method RejectMessage(rest: RawLeg.State, world: World) returns (ghost acts: seq<RawLeg.Action>, ghost trace: seq<RawLeg.State>)
      requires reader.consumer.Fetching? && reader.committed < |rest.raw| && !RawLeg.Acceptable(rest.raw[reader.committed])
      modifies this
      ensures RawLeg.Path(trace, acts) && trace[0] == old(Whole(rest)) && trace[|acts|] == Whole(rest)
      ensures reader.consumer.Stopped? && reader.committed == old(reader.committed)
    {
      ghost var act := RawLeg.Reject(world.dlqOk(reader.committed));
      acts, trace := [act], [Whole(rest), RawLeg.Apply(Whole(rest), act)];
      Machines.PathOne(RawLeg.Steps, Whole(rest), act, trace[1]);
      HandleFailure(rest.raw[reader.committed], world.dlqOk(reader.committed));
    }

    /** AddRecord for an acceptable message, and what the loop makes of its error. */
    method Insert(rest: RawLeg.State, world: World) returns (failed: bool, ghost act: RawLeg.Action)
      requires reader.consumer.Fetching? && reader.committed < |rest.raw| && RawLeg.Acceptable(rest.raw[reader.committed])
      modifies this
      ensures RawLeg.Enabled(old(Whole(rest)), act) && Whole(rest) == RawLeg.Apply(old(Whole(rest)), act)
      ensures reader.committed == old(reader.committed)
      ensures failed <==> world.database(reader.committed).Refuses?
      ensures if failed then reader.consumer.Stopped? else reader.consumer.Handled?
    {
      var i := reader.committed;
      var m := rest.raw[i];
      act := RawLeg.Add(OutcomeOf(AgentInbox.HasId(agent.rows, m.u.id), world.database(i), world.dlqOk(i)), world.now(i));
      var err := AddRecord(m.u, world.now(i), world.database(i));
      failed := err.OtherError?;
      if failed {
        HandleFailure(m, world.dlqOk(i));
      } else {
        reader := reader.(consumer := RawLeg.Handled,
                          silenced := if world.database(i).Breaks? then reader.silenced + {i} else reader.silenced);
      }
    }

    /** CommitMessages. */
    method Commit(rest: RawLeg.State, world: World) returns (ok: bool, ghost act: RawLeg.Action)
      requires reader.consumer.Handled?
      modifies this`reader
      ensures RawLeg.Enabled(old(Whole(rest)), act) && Whole(rest) == RawLeg.Apply(old(Whole(rest)), act)
      ensures ok == world.commitOk(old(reader.committed))
      ensures reader.committed == old(reader.committed) + if ok then 1 else 0
      ensures if ok then reader.consumer.Fetching? else reader.consumer.Stopped?
    {
      ok := world.commitOk(reader.committed);
      if ok {
        act := RawLeg.CommitOffset;
        reader := reader.(consumer := RawLeg.Fetching, committed := reader.committed + 1);
      } else {
        act := RawLeg.Stop;
        reader := reader.(consumer := RawLeg.Stopped);
      }
    }

    /** One round: fetch, decode, validate, insert, commit. more tells whether the loop goes on. */
    method Round(rest: RawLeg.State, world: World) returns (more: bool, ghost acts: seq<RawLeg.Action>, ghost trace: seq<RawLeg.State>)
      requires reader.consumer.Fetching? && reader.committed < |rest.raw|
      modifies this
      ensures RawLeg.Path(trace, acts) && trace[0] == old(Whole(rest)) && trace[|acts|] == Whole(rest)
      ensures reader.committed == old(reader.committed) + if more then 1 else 0
      ensures if more then reader.consumer.Fetching? else reader.consumer.Stopped?
      ensures var i := old(reader.committed); more <==>
        RawLeg.Acceptable(rest.raw[i]) && !world.database(i).Refuses? && world.commitOk(i)
    {
      if !RawLeg.Acceptable(rest.raw[reader.committed]) {
        acts, trace := RejectMessage(rest, world);
        return false, acts, trace;
      }
      ghost var act, s0 := RawLeg.Stop, Whole(rest);
      var failed;
      failed, act := Insert(rest, world);
      acts, trace := [act], [s0, Whole(rest)];
      Machines.PathOne(RawLeg.Steps, s0, act, Whole(rest));
      if failed {
        return false, acts, trace;
      }
      ghost var s1 := Whole(rest);
      more, act := Commit(rest, world);
      Machines.PathOne(RawLeg.Steps, s1, act, Whole(rest));
      Machines.PathConcat(RawLeg.Steps, trace, acts, [s1, Whole(rest)], [act]);
      acts, trace := acts + [act], trace + [s1, Whole(rest)][1..];
    }

    /** Consume until the topic is read or the loop returns. The offset ends on the first message that is
        not acceptable, whose insert is refused, or whose commit fails. */
    method Consume(rest: RawLeg.State, world: World) returns (ghost acts: seq<RawLeg.Action>, ghost trace: seq<RawLeg.State>)
      requires reader.consumer.Fetching? && reader.committed <= |rest.raw|
      modifies this
      ensures RawLeg.Path(trace, acts) && trace[0] == old(Whole(rest)) && trace[|acts|] == Whole(rest)
      ensures old(reader.committed) <= reader.committed <= |rest.raw|
      ensures forall i :: old(reader.committed) <= i < reader.committed ==> Passes(rest.raw, world, i)
      ensures reader.committed < |rest.raw| ==> !Passes(rest.raw, world, reader.committed)
    {
      acts, trace := [], [Whole(rest)];
      var more := true;
      while more && reader.committed < |rest.raw|
        invariant old(reader.committed) <= reader.committed <= |rest.raw|
        invariant RawLeg.Path(trace, acts) && trace[0] == old(Whole(rest)) && trace[|acts|] == Whole(rest)
        invariant more ==> reader.consumer.Fetching?
        invariant forall i :: old(reader.committed) <= i < reader.committed ==> Passes(rest.raw, world, i)
        invariant !more ==> reader.committed < |rest.raw| && !Passes(rest.raw, world, reader.committed)
        decreases more, |rest.raw| - reader.committed
      {
        ghost var a, t;
        more, a, t := Round(rest, world);
        Machines.PathConcat(RawLeg.Steps, trace, acts, t, a);
        acts, trace := acts + a, trace + t[1..];
      }
    }
  }

  predicate Passes(raw: seq<RawLeg.Message>, world: World, i: nat)
    requires i < |raw|
  {
    RawLeg.Acceptable(raw[i]) && !world.database(i).Refuses? && world.commitOk(i)
  }
}
