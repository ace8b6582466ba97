/** Relays between IRC servers (internal/agent/federation.go). */
module Federation {
  import opened Irc
  import opened Protocol
  import opened Sequences

  datatype Mapping = Mapping(localChannel: string, remoteChannel: string, linkName: string)

  /** A line sent on the connection of a remote link. */
  datatype LinkSend = LinkSend(link: string, send: Send)

  const FED := "[fed:"

  predicate IsFederatedMessage(text: string) {
    FED <= text
  }

  function Tagged(origin: string, ev: Event): string {
    FED + origin + "] <" + ev.nick + "> " + ev.text
  }

  function LocalRelays(mappings: seq<Mapping>, links: set<string>, ev: Event): seq<LinkSend> {
    if mappings == [] then []
    else
      var m := mappings[|mappings| - 1];
      LocalRelays(mappings[..|mappings| - 1], links, ev)
      + (if m.localChannel == ev.channel && m.linkName in links
         then [LinkSend(m.linkName, Send(m.remoteChannel, Tagged("local", ev)))] else [])
  }

  function RemoteRelays(mappings: seq<Mapping>, link: string, ev: Event): seq<Send> {
    if mappings == [] then []
    else
      var m := mappings[|mappings| - 1];
      RemoteRelays(mappings[..|mappings| - 1], link, ev)
      + (if m.linkName == link && m.remoteChannel == ev.channel then [Send(m.localChannel, Tagged(link, ev))] else [])
  }

  /** What the handler on the local connection relays. */
  function RelayedOut(mappings: seq<Mapping>, links: set<string>, nick: string, ev: Event): seq<LinkSend> {
    if IsFederatedMessage(ev.text) || ev.nick == nick then [] else LocalRelays(mappings, links, ev)
  }

  /** What the handler on a link's connection relays. */
  function RelayedIn(mappings: seq<Mapping>, link: string, ev: Event): seq<Send> {
    if IsFederatedMessage(ev.text) then [] else RemoteRelays(mappings, link, ev)
  }

  /** links holds the connected link names; linkLog is what was sent over all of them. */
  class FederationManager {
    var links: set<string>
    var mappings: seq<Mapping>
    var linkLog: seq<LinkSend>
    const localClient: Client
    const localNick: string

    constructor (localClient: Client, localNick: string)
      ensures links == {} && mappings == [] && linkLog == []
      ensures this.localClient == localClient && this.localNick == localNick
    {
      links, mappings, linkLog := {}, [], [];
      this.localClient, this.localNick := localClient, localNick;
    }

    method AddLink(name: string)
      modifies this`links
      ensures links == old(links) + {name}
    {
      links := links + {name};
    }

    method AddMapping(m: Mapping)
      modifies this`mappings
      ensures mappings == old(mappings) + [m]
    {
      mappings := mappings + [m];
    }

    method OnLocalMessage(ev: Event)
      modifies this`linkLog
      ensures linkLog == old(linkLog) + RelayedOut(mappings, links, localNick, ev)
    {
      if IsFederatedMessage(ev.text) || ev.nick == localNick {
        return;
      }
      ghost var before := linkLog;
      for i := 0 to |mappings|
        invariant linkLog == before + LocalRelays(mappings[..i], links, ev)
      {
        assert mappings[..i + 1][..i] == mappings[..i];
        var m := mappings[i];
        if m.localChannel != ev.channel || m.linkName !in links {
          continue;
        }
        linkLog := linkLog + [LinkSend(m.linkName, Send(m.remoteChannel, Tagged("local", ev)))];
      }
      assert mappings[..|mappings|] == mappings;
    }

    method OnRemoteMessage(link: string, ev: Event)
      modifies localClient
      ensures localClient.sent == old(localClient.sent) + RelayedIn(mappings, link, ev)
    {
      if IsFederatedMessage(ev.text) {
        return;
      }
      ghost var before := localClient.sent;
      for i := 0 to |mappings|
        invariant localClient.sent == before + RemoteRelays(mappings[..i], link, ev)
      {
        assert mappings[..i + 1][..i] == mappings[..i];
        var m := mappings[i];
        if m.linkName != link || m.remoteChannel != ev.channel {
          continue;
        }
        localClient.SendMessage(m.localChannel, Tagged(link, ev));
      }
      assert mappings[..|mappings|] == mappings;
    }
  }

  lemma TaggedIsFederated(origin: string, ev: Event)
    ensures IsFederatedMessage(Tagged(origin, ev))
  {
    assert Tagged(origin, ev) == FED + (origin + "] <" + ev.nick + "> " + ev.text);
  }

  lemma {:induction false} LocalRelaysAreTagged(mappings: seq<Mapping>, links: set<string>, ev: Event)
    ensures forall i :: 0 <= i < |LocalRelays(mappings, links, ev)| ==> IsFederatedMessage(LocalRelays(mappings, links, ev)[i].send.text)
  {
    hide IsFederatedMessage, Tagged;
    if mappings != [] {
      LocalRelaysAreTagged(mappings[..|mappings| - 1], links, ev);
      TaggedIsFederated("local", ev);
    }
  }

  lemma {:induction false} RemoteRelaysAreTagged(mappings: seq<Mapping>, link: string, ev: Event)
    ensures forall i :: 0 <= i < |RemoteRelays(mappings, link, ev)| ==> IsFederatedMessage(RemoteRelays(mappings, link, ev)[i].text)
  {
    hide IsFederatedMessage, Tagged;
    if mappings != [] {
      RemoteRelaysAreTagged(mappings[..|mappings| - 1], link, ev);
      TaggedIsFederated(link, ev);
    }
  }

  /** What a relay sends, outward over a link or inward to the local connection. */
  predicate Relayed(mappings: seq<Mapping>, links: set<string>, nick: string, link: string, ev: Event, text: string) {
    || (exists i :: 0 <= i < |RelayedOut(mappings, links, nick, ev)| && RelayedOut(mappings, links, nick, ev)[i].send.text == text)
    || (exists i :: 0 <= i < |RelayedIn(mappings, link, ev)| && RelayedIn(mappings, link, ev)[i].text == text)
  }

  /** Loop prevention: what one relay sends is relayed by no other, whatever the mappings, links and nicks of either. */
  lemma RelaysAreNotRelayed(
      mappings: seq<Mapping>, links: set<string>, nick: string, link: string, ev: Event,
      otherMappings: seq<Mapping>, otherLinks: set<string>, otherNick: string, otherLink: string, echo: Event)
    requires Relayed(mappings, links, nick, link, ev, echo.text)
    ensures RelayedOut(otherMappings, otherLinks, otherNick, echo) == []
    ensures RelayedIn(otherMappings, otherLink, echo) == []
  {
    hide IsFederatedMessage, LocalRelays, RemoteRelays;
    LocalRelaysAreTagged(mappings, links, ev);
    RemoteRelaysAreTagged(mappings, link, ev);
  }

  // ---------- what is relayed ----------

  /** A mapping of the line's channel to a known link relays it there, with its nick and text after the tag. */
  function Outward(links: set<string>, ev: Event): Mapping -> Option<LinkSend> {
    (m: Mapping) =>
      if m.localChannel == ev.channel && m.linkName in links then
        Some(LinkSend(m.linkName, Send(m.remoteChannel, "[fed:local] <" + ev.nick + "> " + ev.text)))
      else None
  }

  /** A mapping from the link and channel that a line came over relays it to the local channel, tagged with the link. */
  function Inward(link: string, ev: Event): Mapping -> Option<Send> {
    (m: Mapping) =>
      if m.linkName == link && m.remoteChannel == ev.channel then
        Some(Send(m.localChannel, "[fed:" + link + "] <" + ev.nick + "> " + ev.text))
      else None
  }

  lemma LocalTag(ev: Event)
    ensures Tagged("local", ev) == "[fed:local] <" + ev.nick + "> " + ev.text
  {
    assert "[fed:" + "local" + "] <" == "[fed:local] <";
  }

  lemma {:induction false} LocalRelaysAreSelection(mappings: seq<Mapping>, links: set<string>, ev: Event)
    ensures IsSelection(mappings, LocalRelays(mappings, links, ev), Outward(links, ev))
  {
    hide IsSelection, Tagged;
    if mappings == [] {
      NothingSelected(Outward(links, ev));
    } else {
      var front, last := mappings[..|mappings| - 1], mappings[|mappings| - 1];
      LocalRelaysAreSelection(front, links, ev);
      LocalTag(ev);
      assert front + [last] == mappings;
      SelectionGrows(front, LocalRelays(front, links, ev), Outward(links, ev), last);
    }
  }

  lemma {:induction false} RemoteRelaysAreSelection(mappings: seq<Mapping>, link: string, ev: Event)
    ensures IsSelection(mappings, RemoteRelays(mappings, link, ev), Inward(link, ev))
  {
    hide IsSelection;
    if mappings == [] {
      NothingSelected(Inward(link, ev));
    } else {
      var front, last := mappings[..|mappings| - 1], mappings[|mappings| - 1];
      RemoteRelaysAreSelection(front, link, ev);
      assert front + [last] == mappings;
      SelectionGrows(front, RemoteRelays(front, link, ev), Inward(link, ev), last);
    }
  }

  /**
   * A line of another nick that is not a relayed one goes out over exactly the mappings of its channel with a known link, and
   * one that came over a link goes to exactly the local channels mapped to where it came from, in order; no other line does.
   */
  lemma RelayedExactly(mappings: seq<Mapping>, links: set<string>, nick: string, link: string, ev: Event)
    ensures "[fed:" <= ev.text || ev.nick == nick ==> RelayedOut(mappings, links, nick, ev) == []
    ensures !("[fed:" <= ev.text) && ev.nick != nick ==>
      IsSelection(mappings, RelayedOut(mappings, links, nick, ev), Outward(links, ev))
    ensures "[fed:" <= ev.text ==> RelayedIn(mappings, link, ev) == []
    ensures !("[fed:" <= ev.text) ==> IsSelection(mappings, RelayedIn(mappings, link, ev), Inward(link, ev))
  {
    hide IsSelection, LocalRelays, RemoteRelays;
    LocalRelaysAreSelection(mappings, links, ev);
    RemoteRelaysAreSelection(mappings, link, ev);
  }
}
