/** irc3's user list plugin: the bot's view of which channels it sees, who is
    in each of them, and the last mask observed for every known nickname.

    The state is two maps. The step functions below say what each event
    handler makes of a given state; the class `Userlist` holds the two maps
    as fields and updates them in place the way the plugin does, each method
    proved to end in the state its step function gives. */
module UserlistPlugin {
  import opened IrcText

  /** `Channel`: a set of nicknames that also carries an `ops` set. */
  datatype Channel = Channel(members: set<string>, ops: set<string>)

  /** What the `defaultdict(Channel)` factory produces. */
  const EmptyChannel: Channel := Channel({}, {})

  /** A value of `nicks`: the whole mask seen on a JOIN or built from a WHO
      reply, or the bare nickname a NAMES reply gives. */
  datatype Identity = Full(mask: Mask) | Bare(name: string)

  /** The plugin's two maps: channel name to channel, nickname to identity. */
  datatype Store = Store(channels: map<string, Channel>, nicks: map<string, Identity>)

  /** How a handler ends: normally, or with Python's `KeyError` for the key
      that `del` or `set.remove` did not find. */
  datatype Outcome = Ok | KeyError(key: string)

  /** The state a handler leaves behind (also when it raised) and how it ended. */
  datatype Step = Step(store: Store, outcome: Outcome)

  /** The three events the JOIN/PART/QUIT handler is registered for. */
  datatype Command = JOIN | PART | QUIT

  /** The state `connection_lost` sets up: no channel, no nickname. */
  function Fresh(): Store
  {
    Store(map[], map[])
  }

  /** `channels[name]` on the defaultdict: the tracked channel, or a new empty one. */
  function Get(channels: map<string, Channel>, name: string): Channel
  {
    if name in channels then channels[name] else EmptyChannel
  }

  /** `channels[name].add(nick)`: creates the channel when it is missing. */
  function AddMember(channels: map<string, Channel>, name: string, nick: string): map<string, Channel>
  {
    var c := Get(channels, name);
    channels[name := c.(members := c.members + {nick})]
  }

  /** The channel with `nick` taken out of its members. */
  function Without(c: Channel, nick: string): Channel
  {
    c.(members := c.members - {nick})
  }

  /** `True in [nick in c for c in channels.values()]`. */
  predicate InAnyChannel(channels: map<string, Channel>, nick: string)
  {
    exists name :: name in channels && nick in channels[name].members
  }

  /** The invariant every handler keeps: each member of a channel has an entry
      in `nicks`, and no handler ever fills an `ops` set. */
  predicate Valid(s: Store)
  {
    forall name :: name in s.channels ==> s.channels[name].members <= s.nicks.Keys && s.channels[name].ops == {}
  }

  /** `join`: someone other than the bot is added to the channel under the
      nickname as it was written, and its mask is recorded under that same
      (not lowered) nickname. A JOIN by the bot itself changes nothing. */
  function JoinStep(s: Store, mask: Mask, channel: string, botNick: string): Store
  {
    if mask.LNick() != Lower(botNick) then
      Store(AddMember(s.channels, channel, mask.nick), s.nicks[mask.nick := Full(mask)])
    else
      s
  }

  /** `part`: the bot leaving forgets the channel (`del`, so a channel that is
      not tracked raises). Anyone else is removed from that channel under the
      lowered nickname (`set.remove`, which raises when it is not a member,
      after the defaultdict has created the channel), and its `nicks` entry is
      deleted once it is in no channel any more (`del`, which raises when the
      entry is missing). */
  function PartStep(s: Store, mask: Mask, channel: string, botNick: string): Step
  {
    var nick := mask.LNick();
    if nick == Lower(botNick) then
      if channel in s.channels then Step(s.(channels := s.channels - {channel}), Ok)
      else Step(s, KeyError(channel))
    else
      var c := Get(s.channels, channel);
      if nick !in c.members then
        Step(s.(channels := s.channels[channel := c]), KeyError(nick))
      else
        var channels := s.channels[channel := Without(c, nick)];
        if InAnyChannel(channels, nick) then Step(Store(channels, s.nicks), Ok)
        else if nick in s.nicks then Step(Store(channels, s.nicks - {nick}), Ok)
        else Step(Store(channels, s.nicks), KeyError(nick))
  }

  /** `quit`: the bot quitting is a lost connection. Anyone else is taken out
      of every channel, then its `nicks` entry is deleted (`del`, which raises
      when the entry is missing, after the channels have been updated). */
  function QuitStep(s: Store, mask: Mask, botNick: string): Step
  {
    var nick := mask.LNick();
    if nick == Lower(botNick) then
      Step(Fresh(), Ok)
    else
      var channels := map name | name in s.channels :: Without(s.channels[name], nick);
      if nick in s.nicks then Step(Store(channels, s.nicks - {nick}), Ok)
      else Step(Store(channels, s.nicks), KeyError(nick))
  }

  /** The key a names-reply token is filed under: markers stripped, lowered. */
  function NameKey(token: string): string
  {
    Lower(Strip(token))
  }

  /** One token of a names reply: the lowered nickname joins the channel and
      `nicks` maps it to the stripped token in its original case. */
  function AddName(s: Store, channel: string, token: string): Store
  {
    var nick := Strip(token);
    Store(AddMember(s.channels, channel, Lower(nick)), s.nicks[Lower(nick) := Bare(nick)])
  }

  /** The tokens of a names reply applied from first to last. */
  function NamesFold(s: Store, channel: string, tokens: seq<string>): Store
  {
    if tokens == [] then s
    else AddName(NamesFold(s, channel, tokens[..|tokens| - 1]), channel, tokens[|tokens| - 1])
  }

  /** `names`: every space-separated token of the reply, in order. */
  function NamesStep(s: Store, channel: string, nicknames: string): Store
  {
    NamesFold(s, channel, Split(nicknames))
  }

  /** `who`: the lowered nickname joins the channel and `nicks` maps it to the
      mask `nick!user@host`, replacing whatever was recorded before. */
  function WhoStep(s: Store, channel: string, nick: string, user: string, host: string): Store
  {
    Store(AddMember(s.channels, channel, Lower(nick)), s.nicks[Lower(nick) := Full(Mask(nick, user, host))])
  }

  /** `join_part_quit`: the handler named by the lowered event. */
  function DispatchStep(s: Store, mask: Mask, event: Command, channel: string, botNick: string): Step
  {
    match event
    case JOIN => Step(JoinStep(s, mask, channel, botNick), Ok)
    case PART => PartStep(s, mask, channel, botNick)
    case QUIT => QuitStep(s, mask, botNick)
  }

  // Every handler keeps `Valid`, on every path, including those that raise.

  /** JOIN keeps the invariant. */
  lemma JoinKeepsValid(s: Store, mask: Mask, channel: string, botNick: string)
    requires Valid(s)
    ensures Valid(JoinStep(s, mask, channel, botNick))
  {
  }

  /** PART keeps the invariant on every path, including the ones that raise. */
  lemma PartKeepsValid(s: Store, mask: Mask, channel: string, botNick: string)
    requires Valid(s)
    ensures Valid(PartStep(s, mask, channel, botNick).store)
  {
    var nick, t := mask.LNick(), PartStep(s, mask, channel, botNick).store;
    if nick != Lower(botNick) && nick in Get(s.channels, channel).members && nick !in t.nicks {
      assert !InAnyChannel(t.channels, nick);
    }
  }

  /** QUIT keeps the invariant on every path, including the one that raises. */
  lemma QuitKeepsValid(s: Store, mask: Mask, botNick: string)
    requires Valid(s)
    ensures Valid(QuitStep(s, mask, botNick).store)
  {
  }

  /** Every sequence of names fields keeps the invariant. */
  lemma {:induction false} NamesFoldKeepsValid(s: Store, channel: string, tokens: seq<string>)
    requires Valid(s)
    ensures Valid(NamesFold(s, channel, tokens))
  {
    if tokens != [] {
      NamesFoldKeepsValid(s, channel, tokens[..|tokens| - 1]);
    }
  }

  /** WHO keeps the invariant. */
  lemma WhoKeepsValid(s: Store, channel: string, nick: string, user: string, host: string)
    requires Valid(s)
    ensures Valid(WhoStep(s, channel, nick, user, host))
  {
  }

  /** The plugin object. `botNick` stands for `self.bot.nick`, the bot's
      current nickname, read at the time of each call. */
  class Userlist {
    var channels: map<string, Channel>
    var nicks: map<string, Identity>

    /** The two maps as a value. */
    function Snapshot(): Store
      reads this
    {
      Store(channels, nicks)
    }

    /** `__init__`: starts from the state `connection_lost` sets up. */
    constructor ()
      ensures Snapshot() == Fresh()
    {
      channels := map[];
      nicks := map[];
    }

    /** `connection_lost`: both maps start over empty, from any state. */
    method ConnectionLost()
      modifies this
      ensures Snapshot() == Fresh()
      ensures Valid(Snapshot())
    {
      channels := map[];
      nicks := map[];
    }

    method Join(mask: Mask, channel: string, botNick: string)
      modifies this
      ensures Snapshot() == JoinStep(old(Snapshot()), mask, channel, botNick)
      ensures Valid(old(Snapshot())) ==> Valid(Snapshot())
    {
      if Valid(Snapshot()) {
        JoinKeepsValid(Snapshot(), mask, channel, botNick);
      }
      var nick := mask.LNick();
      if nick != Lower(botNick) {
        channels := AddMember(channels, channel, mask.nick);
        nicks := nicks[mask.nick := Full(mask)];
      }
    }

    method Part(mask: Mask, channel: string, botNick: string) returns (r: Outcome)
      modifies this
      ensures Step(Snapshot(), r) == PartStep(old(Snapshot()), mask, channel, botNick)
      ensures Valid(old(Snapshot())) ==> Valid(Snapshot())
    {
      if Valid(Snapshot()) {
        PartKeepsValid(Snapshot(), mask, channel, botNick);
      }
      var nick := mask.LNick();
      if nick == Lower(botNick) {
        if channel !in channels {
          return KeyError(channel);
        }
        channels := channels - {channel};
        return Ok;
      }
      if channel !in channels {
        channels := channels[channel := EmptyChannel];
      }
      var c := channels[channel];
      if nick !in c.members {
        return KeyError(nick);
      }
      channels := channels[channel := Without(c, nick)];
      if !InAnyChannel(channels, nick) {
        if nick !in nicks {
          return KeyError(nick);
        }
        nicks := nicks - {nick};
      }
      return Ok;
    }

    method Quit(mask: Mask, botNick: string) returns (r: Outcome)
      modifies this
      ensures Step(Snapshot(), r) == QuitStep(old(Snapshot()), mask, botNick)
      ensures Valid(old(Snapshot())) ==> Valid(Snapshot())
    {
      if Valid(Snapshot()) {
        QuitKeepsValid(Snapshot(), mask, botNick);
      }
      var nick := mask.LNick();
      if nick == Lower(botNick) {
        ConnectionLost();
        return Ok;
      }
      var pending := channels.Keys;
      while pending != {}
        invariant pending <= channels.Keys == old(channels).Keys
        invariant nicks == old(nicks)
        invariant forall name :: name in channels ==>
                    channels[name] == if name in pending then old(channels)[name] else Without(old(channels)[name], nick)
        decreases pending
      {
        var name :| name in pending;
        if nick in channels[name].members {
          channels := channels[name := Without(channels[name], nick)];
        } else {
          assert Without(channels[name], nick) == channels[name];
        }
        pending := pending - {name};
      }
      if nick !in nicks {
        return KeyError(nick);
      }
      nicks := nicks - {nick};
      return Ok;
    }

    method Names(channel: string, nicknames: string)
      modifies this
      ensures Snapshot() == NamesStep(old(Snapshot()), channel, nicknames)
      ensures Valid(old(Snapshot())) ==> Valid(Snapshot())
    {
      if Valid(Snapshot()) {
        NamesFoldKeepsValid(Snapshot(), channel, Split(nicknames));
      }
      var tokens := Split(nicknames);
      var i := 0;
      while i < |tokens|
        invariant 0 <= i <= |tokens|
        invariant Snapshot() == NamesFold(old(Snapshot()), channel, tokens[..i])
      {
        var nick := Strip(tokens[i]);
        var lnick := Lower(nick);
        channels := AddMember(channels, channel, lnick);
        nicks := nicks[lnick := Bare(nick)];
        assert tokens[..i + 1][..i] == tokens[..i];
        i := i + 1;
      }
      assert tokens[..i] == tokens;
    }

    method Who(channel: string, nick: string, user: string, host: string)
      modifies this
      ensures Snapshot() == WhoStep(old(Snapshot()), channel, nick, user, host)
      ensures Valid(old(Snapshot())) ==> Valid(Snapshot())
    {
      if Valid(Snapshot()) {
        WhoKeepsValid(Snapshot(), channel, nick, user, host);
      }
      channels := AddMember(channels, channel, Lower(nick));
      var mask := Mask(nick, user, host);
      nicks := nicks[Lower(nick) := Full(mask)];
    }

    method JoinPartQuit(mask: Mask, event: Command, channel: string, botNick: string) returns (r: Outcome)
      modifies this
      ensures Step(Snapshot(), r) == DispatchStep(old(Snapshot()), mask, event, channel, botNick)
      ensures Valid(old(Snapshot())) ==> Valid(Snapshot())
    {
      match event
      case JOIN =>
        Join(mask, channel, botNick);
        r := Ok;
      case PART =>
        r := Part(mask, channel, botNick);
      case QUIT =>
        r := Quit(mask, botNick);
    }
  }
}
