/**
 The provider emulator's create-command resource (zdrovena/fake_providers/allegro.py, create_command,
 command_status and _create_completed_shipment).
 */
module AllegroEmulator {
  import opened Prelude

  import AllegroRun

  /** A command is named by its client, or by the emulator's own counter; a shipment by its counter. */
  datatype CommandId = Given(id: string) | Assigned(n: nat)

  datatype Status = IN_PROGRESS | SUCCESS | ERROR

  datatype Command = Command(input: string, status: Status, polls: nat, shipment: Option<nat>)

  datatype Scenario = Normal | StuckPending | CommandError

  datatype Reply = NotFound | StillInProgress | Rejected | Shipment(id: nat) | ServerError

  datatype Provider = Provider(
    commands: map<CommandId, Command>,
    shipments: map<nat, CommandId>,   // which command each shipment was made for
    shipmentCount: nat,
    commandCount: nat)

  const EMPTY := Provider(map[], map[], 0, 0)

  function NamedId(p: Provider, id: string): CommandId {
    if id == "" then Assigned(p.commandCount + 1) else Given(id)
  }

  function Created(p: Provider, id: string, input: string): Provider {
    var name := NamedId(p, id);
    var q := if id == "" then p.(commandCount := p.commandCount + 1) else p;
    if name in q.commands then q else q.(commands := q.commands[name := Command(input, IN_PROGRESS, 0, None)])
  }

  function Completed(p: Provider, name: CommandId): Provider
    requires name in p.commands
  {
    var c := p.commands[name];
    if c.shipment.Some? then p
    else
      var n := p.shipmentCount + 1;
      p.(shipmentCount := n, shipments := p.shipments[n := name],
         commands := p.commands[name := c.(shipment := Some(n))])
  }

  function Marked(p: Provider, name: CommandId, c: Command): Provider {
    p.(commands := p.commands[name := c])
  }

  /** The command as one poll leaves it, before a shipment is made. */
  function Counted(c: Command, scenario: Scenario): Command {
    c.(polls := c.polls + 1,
       status := match scenario
                 case CommandError => ERROR
                 case Normal => if c.polls + 1 >= 2 then SUCCESS else c.status
                 case StuckPending => c.status)
  }

  function Polled(p: Provider, name: CommandId, scenario: Scenario): Provider {
    if name !in p.commands then p
    else
      var c := Counted(p.commands[name], scenario);
      var q := Marked(p, name, c);
      if scenario.Normal? && c.polls >= 2 then Completed(q, name) else q
  }

  /** The answer to that poll, read off the state it leaves. */
  function Answer(p: Provider, name: CommandId, scenario: Scenario): Reply {
    var q := Polled(p, name, scenario);
    if name !in q.commands then NotFound
    else if scenario.CommandError? then Rejected
    else if q.commands[name].status == IN_PROGRESS then StillInProgress
    else if q.commands[name].shipment.Some? then Shipment(q.commands[name].shipment.value)
    else ServerError  // the response reads a shipment id the command does not have
  }

  class FakeAllegro {
    var commands: map<CommandId, Command>
    var shipments: map<nat, CommandId>
    var shipmentCount: nat
    var commandCount: nat

    function Value(): Provider
      reads this
    {
      Provider(commands, shipments, shipmentCount, commandCount)
    }

    method CreateCommand(id: string, input: string) returns (name: CommandId)
      modifies this
      ensures name == NamedId(old(Value()), id) && Value() == Created(old(Value()), id, input)
      ensures id != "" ==> name == Given(id) && commandCount == old(commandCount)
      ensures id == "" ==> name == Assigned(old(commandCount) + 1) && commandCount == old(commandCount) + 1
      ensures commands == if name in old(commands) then old(commands)
                          else old(commands)[name := Command(input, IN_PROGRESS, 0, None)]
      ensures shipments == old(shipments) && shipmentCount == old(shipmentCount)
    {
      if id == "" {
        commandCount := commandCount + 1;
        name := Assigned(commandCount);
      } else {
        name := Given(id);
      }
      if name !in commands {
        commands := commands[name := Command(input, IN_PROGRESS, 0, None)];
      }
    }

    method CreateCompletedShipment(name: CommandId) returns (shipment: nat)
      requires name in commands
      modifies this
      ensures Value() == Completed(old(Value()), name)
      ensures name in commands && commands[name].shipment == Some(shipment)
    {
      if commands[name].shipment.Some? {
        return commands[name].shipment.value;
      }
      shipmentCount := shipmentCount + 1;
      shipment := shipmentCount;
      shipments := shipments[shipment := name];
      commands := commands[name := commands[name].(shipment := Some(shipment))];
    }

    method CommandStatus(name: CommandId, scenario: Scenario) returns (reply: Reply)
      modifies this
      ensures Value() == Polled(old(Value()), name, scenario)
      ensures reply == Answer(old(Value()), name, scenario)
      ensures reply.NotFound? <==> name !in old(commands)
      ensures reply.Rejected? <==> name in old(commands) && scenario.CommandError?
      ensures reply.Shipment? ==> name in commands && commands[name].shipment == Some(reply.id)
      ensures reply.StillInProgress? ==> name in commands && commands[name].status == IN_PROGRESS
    {
      if name !in commands {
        return NotFound;
      }
      commands := commands[name := commands[name].(polls := commands[name].polls + 1)];
      if scenario.CommandError? {
        commands := commands[name := commands[name].(status := ERROR)];
        return Rejected;
      }
      if scenario.Normal? && commands[name].polls >= 2 {
        commands := commands[name := commands[name].(status := SUCCESS)];
        var _ := CreateCompletedShipment(name);
      }
      if commands[name].status == IN_PROGRESS {
        return StillInProgress;
      }
      reply := if commands[name].shipment.Some? then Shipment(commands[name].shipment.value) else ServerError;
    }
  }

  /** What a poll answers, by scenario, from the command as it stood. */
  lemma AnswerMeans(p: Provider, name: CommandId, scenario: Scenario)
    requires name in p.commands
    ensures var c, reply := p.commands[name], Answer(p, name, scenario);
            match scenario
            case CommandError => reply == Rejected
            case StuckPending =>
              reply == (if c.status == IN_PROGRESS then StillInProgress
                        else if c.shipment.Some? then Shipment(c.shipment.value) else ServerError)
            case Normal =>
              reply == (if c.polls + 1 >= 2 then
                          Shipment(if c.shipment.Some? then c.shipment.value else p.shipmentCount + 1)
                        else if c.status == IN_PROGRESS then StillInProgress
                        else if c.shipment.Some? then Shipment(c.shipment.value) else ServerError)
  {
  }

  /** What a poll leaves: one poll more, an error in the error scenario, and from the second normal poll on
      success and a shipment - the command's own, or the next one made for it. Nothing else changes. */
  lemma PollMeans(p: Provider, name: CommandId, scenario: Scenario)
    requires name in p.commands
    ensures var c, q := p.commands[name], Polled(p, name, scenario);
            && name in q.commands && q.commands[name].polls == c.polls + 1 && q.commands[name].input == c.input
            && (forall other :: other in p.commands && other != name ==>
                  other in q.commands && q.commands[other] == p.commands[other])
            && q.commands.Keys == p.commands.Keys && q.commandCount == p.commandCount
            && q.commands[name].status == (if scenario.CommandError? then ERROR
                                           else if scenario.Normal? && c.polls + 1 >= 2 then SUCCESS else c.status)
            && (if scenario.Normal? && c.polls + 1 >= 2 && c.shipment.None? then
                  q.commands[name].shipment == Some(p.shipmentCount + 1) && q.shipmentCount == p.shipmentCount + 1
                  && q.shipments == p.shipments[p.shipmentCount + 1 := name]
                else q.commands[name].shipment == c.shipment && q.shipmentCount == p.shipmentCount
                     && q.shipments == p.shipments)
  {
  }

  datatype Request = Create(id: string, input: string) | Poll(name: CommandId, scenario: Scenario)

  function After(p: Provider, r: Request): Provider {
    match r
    case Create(id, input) => Created(p, id, input)
    case Poll(name, scenario) => Polled(p, name, scenario)
  }

  function AfterAll(p: Provider, rs: seq<Request>): Provider
    decreases |rs|
  {
    if rs == [] then p else AfterAll(After(p, rs[0]), rs[1..])
  }

  /** Requests are served one after the other. */
  lemma {:induction false} AfterAllConcat(p: Provider, rs: seq<Request>, more: seq<Request>)
    ensures AfterAll(p, rs + more) == AfterAll(AfterAll(p, rs), more)
    decreases |rs|
  {
    if rs == [] {
      assert rs + more == more;
    } else {
      assert (rs + more)[0] == rs[0] && (rs + more)[1..] == rs[1..] + more;
      AfterAllConcat(After(p, rs[0]), rs[1..], more);
    }
  }

  lemma AfterAllOne(p: Provider, id: string, input: string, name: CommandId, scenario: Scenario)
    ensures AfterAll(p, [Create(id, input)]) == Created(p, id, input)
    ensures AfterAll(p, [Poll(name, scenario)]) == Polled(p, name, scenario)
  {
    assert [Create(id, input)][1..] == [] && [Poll(name, scenario)][1..] == [];
  }

  /** Shipments and completed commands pair off: each shipment belongs to one command, which names it. */
  ghost predicate Paired(p: Provider) {
    && (forall n :: n in p.shipments <==> 1 <= n <= p.shipmentCount)
    && (forall n :: n in p.shipments ==>
          p.shipments[n] in p.commands && p.commands[p.shipments[n]].shipment == Some(n))
    && (forall name :: name in p.commands && p.commands[name].shipment.Some? ==>
          p.commands[name].shipment.value in p.shipments && p.shipments[p.commands[name].shipment.value] == name)
  }

  /** Nothing a command has is ever taken back: its input, its shipment, its count of polls. */
  ghost predicate Grows(p: Provider, q: Provider) {
    forall name :: name in p.commands ==>
      && name in q.commands && q.commands[name].input == p.commands[name].input
      && q.commands[name].polls >= p.commands[name].polls
      && (p.commands[name].shipment.Some? ==> q.commands[name].shipment == p.commands[name].shipment)
  }

  lemma EmptyIsPaired()
    ensures Paired(EMPTY) && EMPTY.commandCount == 0
  {
  }

  lemma MarkingKeeps(p: Provider, name: CommandId, c: Command)
    requires Paired(p) && name in p.commands
    requires c.shipment == p.commands[name].shipment && c.input == p.commands[name].input
    requires c.polls >= p.commands[name].polls
    ensures Paired(Marked(p, name, c)) && Grows(p, Marked(p, name, c))
  {
  }

  lemma CompletingKeeps(p: Provider, name: CommandId)
    requires Paired(p) && name in p.commands
    ensures Paired(Completed(p, name)) && Grows(p, Completed(p, name))
  {
    if p.commands[name].shipment.None? {
      var n := p.shipmentCount + 1;
      var q := Completed(p, name);
      assert n !in p.shipments;
      assert q.shipments[n] == name && q.commands[name].shipment == Some(n);
      forall m | m in q.shipments
        ensures q.shipments[m] in q.commands && q.commands[q.shipments[m]].shipment == Some(m)
      {
        if m != n { assert p.commands[p.shipments[m]].shipment == Some(m); }
      }
    }
  }

  lemma GrowthChains(p: Provider, q: Provider, r: Provider)
    requires Grows(p, q) && Grows(q, r)
    ensures Grows(p, r)
  {
  }

  lemma PollingKeeps(p: Provider, name: CommandId, scenario: Scenario)
    requires Paired(p)
    ensures Paired(Polled(p, name, scenario)) && Grows(p, Polled(p, name, scenario))
  {
    if name in p.commands {
      var q := Marked(p, name, Counted(p.commands[name], scenario));
      MarkingKeeps(p, name, Counted(p.commands[name], scenario));
      CompletingKeeps(q, name);
      GrowthChains(p, q, Completed(q, name));
    }
  }

  lemma OneRequest(p: Provider, r: Request)
    requires Paired(p)
    ensures Paired(After(p, r)) && Grows(p, After(p, r))
  {
    if r.Poll? { PollingKeeps(p, r.name, r.scenario); }
  }

  /** Main result: after any posts, re-posts and polls under any scenarios, each command has at most one
      shipment, each shipment exactly one command, and a command's shipment never changes. */
  lemma {:induction false} OneShipmentPerCommand(p: Provider, rs: seq<Request>)
    requires Paired(p)
    ensures Paired(AfterAll(p, rs)) && Grows(p, AfterAll(p, rs))
    decreases |rs|
  {
    if rs == [] {
    } else {
      OneRequest(p, rs[0]);
      OneShipmentPerCommand(After(p, rs[0]), rs[1..]);
    }
  }

  /** Posting a command id again changes nothing at all. */
  lemma RepostIsHarmless(p: Provider, id: string, input: string, rs: seq<Request>, again: string)
    requires id != "" && Paired(p)
    ensures var q := AfterAll(Created(p, id, input), rs);
            Created(q, id, again) == q
  {
    OneRequest(p, Create(id, input));
    OneShipmentPerCommand(Created(p, id, input), rs);
  }

  ghost predicate OnlyNormal(rs: seq<Request>) {
    forall i :: 0 <= i < |rs| && rs[i].Poll? ==> rs[i].scenario.Normal?
  }

  /** In the normal scenario a command that is past its second poll has succeeded, and none before. */
  ghost predicate Timely(p: Provider) {
    forall name :: name in p.commands ==>
      var c := p.commands[name];
      if c.polls >= 2 then c.status == SUCCESS && c.shipment.Some? else c.status == IN_PROGRESS
  }

  lemma {:induction false} NormalIsTimely(p: Provider, rs: seq<Request>)
    requires Timely(p) && OnlyNormal(rs)
    ensures Timely(AfterAll(p, rs))
    decreases |rs|
  {
    if rs == [] {
    } else {
      assert Timely(After(p, rs[0]));
      forall i | 0 <= i < |rs[1..]| && rs[1..][i].Poll? ensures rs[1..][i].scenario.Normal? {
        assert rs[1..][i] == rs[i + 1];
      }
      NormalIsTimely(After(p, rs[0]), rs[1..]);
    }
  }

  /** The emulator as the delivery run sees it: the verdict on the n-th poll of a command. */
  function NormalVerdict(): AllegroRun.Provider {
    (c, n) => if n >= 2 then AllegroRun.Ready else AllegroRun.InProgress
  }

  /** The emulator answers "in progress" on the first poll of a command and with its shipment on every
      later one, whatever else was posted and polled before. So it is ready in time for the delivery run,
      which against it never returns a pending result. */
  lemma SuccessFromTheSecondPoll(rs: seq<Request>, name: CommandId, c: nat)
    requires OnlyNormal(rs) && name in AfterAll(EMPTY, rs).commands
    ensures var p := AfterAll(EMPTY, rs);
            var reply := Answer(p, name, Normal);
            var verdict := NormalVerdict()(c, p.commands[name].polls + 1);
            (reply == StillInProgress <==> verdict.InProgress?) && (reply.Shipment? <==> verdict.Ready?)
    ensures AllegroRun.ReadyInTime(NormalVerdict())
  {
    NormalIsTimely(EMPTY, rs);
  }
}
