/** What the coordination code sees of IRC: lines that arrive and lines that are sent. */
module Irc {
  import opened Protocol
  import opened State
  import opened Wire

  /** A line of text from a nick, as seen on a channel at some time. */
  datatype Event = Event(nick: string, channel: string, text: string, timestamp: int)

  datatype Send = Send(target: string, text: string)

  /** The connection; what it sends is kept as a log. */
  class Client {
    var sent: seq<Send>

    constructor ()
      ensures sent == []
    {
      sent := [];
    }

    method SendMessage(target: string, text: string)
      modifies this
      ensures sent == old(sent) + [Send(target, text)]
    {
      sent := sent + [Send(target, text)];
    }
  }

  /** Replies go to the channel, or to the sender of a message that came without one. */
  function ReplyTarget(msg: Message): string {
    if msg.channel == "" then msg.nick else msg.channel
  }

  /** The message the dispatcher makes of a parsed line. */
  function Enrich(p: Message, ev: Event, now: int): Message {
    p.(nick := ev.nick, channel := ev.channel, timestamp := Stamped(ev.timestamp, now))
  }

  /** The task part of handleMessage, which parses the line first. */
  ghost function Receive(s: Store, ev: Event, now: int): Store {
    if !IsProtocolMessage(ev.text) then s
    else match Parsed(ev.text)
      case Ok(p) => Record(s, Enrich(p, ev, now), now)
      case Err(_) => s
  }

  function AckMessage(task: string, completed: string): Message {
    NewMessage(Acknowledged, map["task" := task, "unblocked-by" := completed], ["auto-unblock"])
  }
}
