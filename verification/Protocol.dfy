/** The message record of pkg/protocol/message.go and the two result types the other modules share. */
module Protocol {

  datatype Option<+T> = None | Some(value: T)

  datatype Result<+T, +E> = Ok(value: T) | Err(error: E)

  /** The recognised protocol actions. Any other action text exists only on the wire, where Parse rejects it. */
  datatype Action =
    | Started | Completed | Blocked | Acknowledged | HelpNeeded
    | Context | RequestContext | SharingContext | Discover | Capabilities
    | Offer | Claim | Assign | Accept | Decline | Yield
    | Checkpoint | Handoff
    | ReviewRequest | ReviewComplete | GateCheck
    | Vote | Escalate
    | CostReport

  /** channel, nick and timestamp are filled in by the dispatcher, not by the parser. */
  datatype Message = Message(
    action: Action,
    fields: map<string, string>,
    tags: seq<string>,
    payload: string,
    channel: string,
    nick: string,
    timestamp: int)
  {
    function Get(key: string): string {
      if key in fields then fields[key] else ""
    }
  }

  /** A message as it is built by a struct literal: no channel, nick or timestamp yet. */
  function NewMessage(action: Action, fields: map<string, string>, tags: seq<string>): Message {
    Message(action, fields, tags, "", "", "", 0)
  }

  /** A zero time stamp is replaced by the current time. */
  function Stamped(timestamp: int, now: int): int {
    if timestamp == 0 then now else timestamp
  }

  /** What the wire carries of a message. */
  function Bare(m: Message): Message {
    m.(channel := "", nick := "", timestamp := 0)
  }

  /** The actions that reach StateStore.UpdateTask, both for sent and for received messages. */
  predicate UpdatesTasks(a: Action) {
    a in {Started, Completed, Blocked, Acknowledged, Offer, Claim, Assign, Accept, Decline, Yield, Checkpoint, Handoff}
  }
}
