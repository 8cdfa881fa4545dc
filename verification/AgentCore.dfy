/** The agent's one-slot duplicate filter (src/agent/Agent.cpp:159-180). */
module AgentCore {
  import opened Sessions

  /** `lastId` is the one-slot duplicate memory, cmd_set_mode_header_id_. */
  datatype Core<W> = Core(lastId: W, mode: W, rc: int)

  datatype Reply<W> = Ack(id: W) | Nack(id: W)

  datatype Reaction<W> = Reaction(core: Core<W>, reply: Reply<W>)

  /** A CMD_SET_MODE with a readable payload. */
  function Handle<W(==)>(a: Core<W>, c: Cmd<W>): Reaction<W> {
    if c.id == a.lastId then Reaction(a, Nack(c.id))
    else Reaction(Core(c.id, c.mode, 0), Ack(c.id))
  }

  /** The agent's memory after a list of commands. */
  function HandleAll<W(==)>(a: Core<W>, cs: seq<Cmd<W>>): Core<W> {
    if cs == [] then a else Handle(HandleAll(a, cs[..|cs| - 1]), cs[|cs| - 1]).core
  }
}
