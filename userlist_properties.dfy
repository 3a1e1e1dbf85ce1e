/** What the user list's handlers guarantee, stated over the step functions
    that the `Userlist` methods are proved to follow. */
module UserlistProperties {
  import opened IrcText
  import opened UserlistPlugin

  // ---------------------------------------------------------------- reset

  /** `connection_lost` empties both maps, the empty state satisfies the
      invariant, and a QUIT by the bot (whatever the case of its nickname) is
      the same reset. */
  lemma ResetIsEmpty(s: Store, mask: Mask, botNick: string)
    requires mask.LNick() == Lower(botNick)
    ensures Fresh().channels == map[] && Fresh().nicks == map[]
    ensures Valid(Fresh())
    ensures QuitStep(s, mask, botNick) == Step(Fresh(), Ok)
    ensures QuitStep(Fresh(), mask, botNick) == Step(Fresh(), Ok)
  {
  }

  // ---------------------------------------------------------------- join

  /** A JOIN by someone else adds the nickname, as written, to that channel
      (creating it when missing), records the mask under that nickname, and
      touches no other channel and no other nickname. */
  lemma JoinEffect(s: Store, mask: Mask, channel: string, botNick: string)
    requires mask.LNick() != Lower(botNick)
    ensures var t := JoinStep(s, mask, channel, botNick);
      && t.channels.Keys == s.channels.Keys + {channel}
      && t.channels[channel].members == Get(s.channels, channel).members + {mask.nick}
      && t.channels[channel].ops == Get(s.channels, channel).ops
      && (forall name :: name in s.channels && name != channel ==> t.channels[name] == s.channels[name])
      && t.nicks.Keys == s.nicks.Keys + {mask.nick}
      && t.nicks[mask.nick] == Full(mask)
      && (forall n :: n in s.nicks && n != mask.nick ==> t.nicks[n] == s.nicks[n])
  {
  }

  /** A JOIN by the bot itself changes neither map. */
  lemma JoinBySelf(s: Store, mask: Mask, channel: string, botNick: string)
    requires mask.LNick() == Lower(botNick)
    ensures JoinStep(s, mask, channel, botNick) == s
  {
  }

  /** A JOIN by someone else on an empty state gives one channel holding one
      member, and one identity. */
  lemma JoinOnFresh(mask: Mask, channel: string, botNick: string)
    requires mask.LNick() != Lower(botNick)
    ensures var t := JoinStep(Fresh(), mask, channel, botNick);
      && t.channels == map[channel := Channel({mask.nick}, {})]
      && t.nicks == map[mask.nick := Full(mask)]
  {
    assert EmptyChannel.members + {mask.nick} == {mask.nick};
  }

  /** The module's documented example: after `:gawel!user@host JOIN #chan`
      the channels are {'#chan': {'gawel'}} and the nicks
      {'gawel': 'gawel!user@host'}. */
  lemma JoinExample(mask: Mask, channel: string, botNick: string)
    requires mask == Mask("gawel", "user", "host") && channel == "#chan"
    requires Lower(botNick) != "gawel"
    ensures var t := JoinStep(Fresh(), mask, channel, botNick);
      && t.channels == map[channel := Channel({"gawel"}, {})]
      && t.nicks == map["gawel" := Full(mask)]
      && mask.Text() == "gawel!user@host"
  {
    LowerOfLowercase("gawel");
    JoinOnFresh(mask, channel, botNick);
  }

  // ---------------------------------------------------------------- part

  /** A PART by the bot removes exactly that channel, fails with the channel
      as key when it was not tracked, and leaves `nicks` alone. */
  lemma PartBySelf(s: Store, mask: Mask, channel: string, botNick: string)
    requires mask.LNick() == Lower(botNick)
    ensures var r := PartStep(s, mask, channel, botNick);
      && (r.outcome == Ok <==> channel in s.channels)
      && (r.outcome != Ok ==> r.outcome == KeyError(channel) && r.store == s)
      && r.store.channels.Keys == s.channels.Keys - {channel}
      && (forall name :: name in r.store.channels ==> r.store.channels[name] == s.channels[name])
      && r.store.nicks == s.nicks
  {
  }

  /** A PART by someone else: when the lowered nickname is not a member the
      handler raises, having only created the channel entry if it was
      missing; otherwise the nickname leaves that one channel, and its `nicks`
      entry goes exactly when it is in no channel any more, which raises when
      there was no such entry. */
  lemma PartByOther(s: Store, mask: Mask, channel: string, botNick: string)
    requires mask.LNick() != Lower(botNick)
    ensures var nick, r := mask.LNick(), PartStep(s, mask, channel, botNick);
      && r.store.channels.Keys == s.channels.Keys + {channel}
      && (forall name :: name in s.channels && name != channel ==> r.store.channels[name] == s.channels[name])
      && (nick !in Get(s.channels, channel).members ==>
            r.outcome == KeyError(nick) && r.store.channels[channel] == Get(s.channels, channel) && r.store.nicks == s.nicks)
      && (nick in Get(s.channels, channel).members ==>
            && r.store.channels[channel].members == Get(s.channels, channel).members - {nick}
            && r.store.channels[channel].ops == Get(s.channels, channel).ops
            && (nick in r.store.nicks <==> nick in s.nicks && InAnyChannel(r.store.channels, nick))
            && (r.outcome != Ok <==> nick !in s.nicks && !InAnyChannel(r.store.channels, nick))
            && (r.outcome != Ok ==> r.outcome == KeyError(nick)))
      && (forall n :: n in s.nicks && n != nick ==> n in r.store.nicks && r.store.nicks[n] == s.nicks[n])
      && r.store.nicks.Keys <= s.nicks.Keys
  {
  }

  /** A lowercase nickname that joins and then parts the same channel is gone
      from it, the PART succeeds, and when it was in no other channel its
      identity is forgotten too. */
  lemma JoinThenPart(s: Store, mask: Mask, channel: string, botNick: string)
    requires Lower(mask.nick) == mask.nick
    requires mask.LNick() != Lower(botNick)
    ensures var r := PartStep(JoinStep(s, mask, channel, botNick), mask, channel, botNick);
      && r.outcome == Ok
      && mask.nick !in r.store.channels[channel].members
      && ((forall name :: name in s.channels && name != channel ==> mask.nick !in s.channels[name].members) ==>
            mask.nick !in r.store.nicks)
  {
    var j := JoinStep(s, mask, channel, botNick);
    var r := PartStep(j, mask, channel, botNick);
    assert mask.LNick() == mask.nick;
    if forall name :: name in s.channels && name != channel ==> mask.nick !in s.channels[name].members {
      if InAnyChannel(r.store.channels, mask.nick) {
        var name :| name in r.store.channels && mask.nick in r.store.channels[name].members;
        assert name != channel;
      }
    }
  }

  /** The other side of the same pair: a nickname with capitals is stored as
      written by JOIN but looked up lowered by PART, so the PART raises and
      the joiner stays a member (unless its lowered form was already one). */
  lemma MixedCaseJoinThenPartFails(s: Store, mask: Mask, channel: string, botNick: string)
    requires mask.LNick() != mask.nick
    requires mask.LNick() != Lower(botNick)
    requires mask.LNick() !in Get(s.channels, channel).members
    ensures var r := PartStep(JoinStep(s, mask, channel, botNick), mask, channel, botNick);
      && r.outcome == KeyError(mask.LNick())
      && mask.nick in r.store.channels[channel].members
  {
  }

  /** PART is not idempotent: repeating a successful PART by someone else
      raises and changes nothing further. */
  lemma PartTwiceRaises(s: Store, mask: Mask, channel: string, botNick: string)
    requires mask.LNick() != Lower(botNick)
    requires PartStep(s, mask, channel, botNick).outcome == Ok
    ensures var once := PartStep(s, mask, channel, botNick).store;
      PartStep(once, mask, channel, botNick) == Step(once, KeyError(mask.LNick()))
  {
    var once := PartStep(s, mask, channel, botNick).store;
    assert channel in once.channels;
  }

  // ---------------------------------------------------------------- quit

  /** A QUIT by someone else leaves the lowered nickname in no channel, keeps
      the set of channel names, changes each channel only by that nickname,
      and removes its `nicks` entry, raising when there was none. */
  lemma QuitByOther(s: Store, mask: Mask, botNick: string)
    requires mask.LNick() != Lower(botNick)
    ensures var nick, r := mask.LNick(), QuitStep(s, mask, botNick);
      && !InAnyChannel(r.store.channels, nick)
      && r.store.channels.Keys == s.channels.Keys
      && (forall name :: name in s.channels ==>
            r.store.channels[name].members == s.channels[name].members - {nick}
            && r.store.channels[name].ops == s.channels[name].ops)
      && nick !in r.store.nicks
      && r.store.nicks.Keys == s.nicks.Keys - {nick}
      && (forall n :: n in r.store.nicks ==> r.store.nicks[n] == s.nicks[n])
      && (r.outcome == Ok <==> nick in s.nicks)
      && (r.outcome != Ok ==> r.outcome == KeyError(nick))
  {
  }

  /** QUIT is not idempotent either: a second QUIT for the same nickname
      raises and leaves the state as the first one left it. */
  lemma QuitTwiceRaises(s: Store, mask: Mask, botNick: string)
    requires mask.LNick() != Lower(botNick)
    ensures var once := QuitStep(s, mask, botNick).store;
      QuitStep(once, mask, botNick) == Step(once, KeyError(mask.LNick()))
  {
    var once := QuitStep(s, mask, botNick).store;
    var twice := QuitStep(once, mask, botNick).store;
    forall name | name in once.channels
      ensures twice.channels[name] == once.channels[name]
    {
      assert twice.channels[name].members == once.channels[name].members;
    }
    assert twice.channels == once.channels;
  }

  // ---------------------------------------------------------------- names

  /** The keys the tokens of a names reply are filed under. */
  function NameKeys(tokens: seq<string>): set<string>
  {
    set t | t in tokens :: NameKey(t)
  }

  /** One field of a names reply adds its key to the channel and changes no
      other channel. */
  lemma AddNameChannels(s: Store, channel: string, token: string)
    ensures var t := AddName(s, channel, token);
      && t.channels.Keys == s.channels.Keys + {channel}
      && Get(t.channels, channel).members == Get(s.channels, channel).members + {NameKey(token)}
      && Get(t.channels, channel).ops == Get(s.channels, channel).ops
      && (forall name :: name in s.channels && name != channel ==> t.channels[name] == s.channels[name])
  {
  }

  /** One field of a names reply maps its key to the stripped field and
      changes no other nickname. */
  lemma AddNameNicks(s: Store, channel: string, token: string)
    ensures var t := AddName(s, channel, token);
      && t.nicks.Keys == s.nicks.Keys + {NameKey(token)}
      && t.nicks[NameKey(token)] == Bare(Strip(token))
      && (forall n :: n in s.nicks && n != NameKey(token) ==> t.nicks[n] == s.nicks[n])
  {
  }

  /** The keys of a reply are those of all fields but the last, plus the last's. */
  lemma NameKeysSnoc(tokens: seq<string>)
    requires tokens != []
    ensures NameKeys(tokens) == NameKeys(tokens[..|tokens| - 1]) + {NameKey(tokens[|tokens| - 1])}
  {
    var init := tokens[..|tokens| - 1];
    assert tokens == init + [tokens[|tokens| - 1]];
    forall k | k in NameKeys(tokens) ensures k in NameKeys(init) + {NameKey(tokens[|tokens| - 1])} {
      var t :| t in tokens && NameKey(t) == k;
    }
  }

  /** A names reply only adds to the channel: it gains the key of every
      field, keeps its operators, and no other channel changes. */
  lemma {:induction false} NamesFoldChannels(s: Store, channel: string, tokens: seq<string>)
    ensures var t := NamesFold(s, channel, tokens);
      && t.channels.Keys == s.channels.Keys + (if tokens == [] then {} else {channel})
      && Get(t.channels, channel).members == Get(s.channels, channel).members + NameKeys(tokens)
      && Get(t.channels, channel).ops == Get(s.channels, channel).ops
      && (forall name :: name in s.channels && name != channel ==> t.channels[name] == s.channels[name])
  {
    if tokens == [] {
      assert NameKeys(tokens) == {};
    } else {
      var init, last := tokens[..|tokens| - 1], tokens[|tokens| - 1];
      NamesFoldChannels(s, channel, init);
      AddNameChannels(NamesFold(s, channel, init), channel, last);
      NameKeysSnoc(tokens);
    }
  }

  /** A names reply gives `nicks` the key of every field and changes no other
      nickname. */
  lemma {:induction false} NamesFoldNicks(s: Store, channel: string, tokens: seq<string>)
    ensures var t := NamesFold(s, channel, tokens);
      && t.nicks.Keys == s.nicks.Keys + NameKeys(tokens)
      && (forall n :: n in s.nicks && n !in NameKeys(tokens) ==> t.nicks[n] == s.nicks[n])
  {
    if tokens == [] {
      assert NameKeys(tokens) == {};
    } else {
      var init, last := tokens[..|tokens| - 1], tokens[|tokens| - 1];
      NamesFoldNicks(s, channel, init);
      AddNameNicks(NamesFold(s, channel, init), channel, last);
      NameKeysSnoc(tokens);
    }
  }

  /** In `nicks`, a key filled by a names reply holds the stripped token, in
      its original case, of the LAST field that lowers to that key. */
  lemma {:induction false} NamesFoldLastWins(s: Store, channel: string, tokens: seq<string>, i: nat)
    requires i < |tokens|
    requires forall j :: i < j < |tokens| ==> NameKey(tokens[j]) != NameKey(tokens[i])
    ensures NameKey(tokens[i]) in NamesFold(s, channel, tokens).nicks
    ensures NamesFold(s, channel, tokens).nicks[NameKey(tokens[i])] == Bare(Strip(tokens[i]))
  {
    if i < |tokens| - 1 {
      NamesFoldLastWins(s, channel, tokens[..|tokens| - 1], i);
    }
  }

  /** The last field of a reply that is filed under key `k`. */
  lemma {:induction false} LastFieldFor(tokens: seq<string>, k: string) returns (i: nat)
    requires k in NameKeys(tokens)
    ensures i < |tokens| && NameKey(tokens[i]) == k
    ensures forall j :: i < j < |tokens| ==> NameKey(tokens[j]) != k
  {
    var last := |tokens| - 1;
    if NameKey(tokens[last]) == k {
      i := last;
    } else {
      NameKeysSnoc(tokens);
      i := LastFieldFor(tokens[..last], k);
    }
  }

  /** `names` on the channels: since a reply always splits into at least one
      field the channel is tracked afterwards, it gains exactly the keys of
      the fields, and no member of any channel is ever removed. */
  lemma NamesChannels(s: Store, channel: string, nicknames: string)
    ensures var t, keys := NamesStep(s, channel, nicknames), NameKeys(Split(nicknames));
      && t.channels.Keys == s.channels.Keys + {channel}
      && t.channels[channel].members == Get(s.channels, channel).members + keys
      && (forall name :: name in s.channels ==> s.channels[name].members <= t.channels[name].members)
      && (forall name :: name in s.channels && name != channel ==> t.channels[name] == s.channels[name])
  {
    NamesFoldChannels(s, channel, Split(nicknames));
  }

  /** `names` on `nicks`: every key of the reply is mapped to a bare nickname
      that lowers to that key (the stripped field in its original case), and
      no other entry changes. */
  lemma NamesIdentities(s: Store, channel: string, nicknames: string)
    ensures var t, keys := NamesStep(s, channel, nicknames), NameKeys(Split(nicknames));
      && t.nicks.Keys == s.nicks.Keys + keys
      && (forall k :: k in keys ==> t.nicks[k].Bare? && Lower(t.nicks[k].name) == k)
      && (forall n :: n in s.nicks && n !in keys ==> t.nicks[n] == s.nicks[n])
  {
    var tokens := Split(nicknames);
    NamesFoldNicks(s, channel, tokens);
    var t := NamesStep(s, channel, nicknames);
    forall k | k in NameKeys(tokens)
      ensures t.nicks[k].Bare? && Lower(t.nicks[k].name) == k
    {
      var i := LastFieldFor(tokens, k);
      NamesFoldLastWins(s, channel, tokens, i);
    }
  }

  /** The reply "@alice +bob carol" splits into its three fields. */
  lemma ExampleFields(reply: string)
    requires reply == "@alice +bob carol"
    ensures Split(reply) == ["@alice", "+bob", "carol"]
  {
    var fields := ["@alice", "+bob", "carol"];
    assert JoinFields(fields) == "@alice +bob carol";
    SplitJoin(fields);
  }

  lemma ExampleKeyAlice()
    ensures Strip("@alice") == "alice" && NameKey("@alice") == "alice"
  {
    assert "@alice" == ['@'] + "alice";
    StripMarked('@', "alice");
    LowerOfLowercase("alice");
  }

  lemma ExampleKeyBob()
    ensures NameKey("+bob") == "bob"
  {
    assert "+bob" == ['+'] + "bob";
    StripMarked('+', "bob");
    LowerOfLowercase("bob");
  }

  lemma ExampleKeyCarol()
    ensures NameKey("carol") == "carol"
  {
    StripPlain("carol");
    LowerOfLowercase("carol");
  }

  /** A three-field reply: the channel gains the three keys, and the first
      key, when no later field shares it, maps to the first stripped field. */
  lemma NamesThreeFields(s: Store, channel: string, a: string, b: string, c: string)
    ensures var t := NamesFold(s, channel, [a, b, c]);
      && channel in t.channels
      && t.channels[channel].members == Get(s.channels, channel).members + {NameKey(a), NameKey(b), NameKey(c)}
      && NameKey(a) in t.nicks
      && (NameKey(b) != NameKey(a) && NameKey(c) != NameKey(a) ==> t.nicks[NameKey(a)] == Bare(Strip(a)))
  {
    var fields := [a, b, c];
    assert NameKeys(fields) == {NameKey(a), NameKey(b), NameKey(c)} by {
      assert fields[0] == a && fields[1] == b && fields[2] == c;
    }
    NamesFoldChannels(s, channel, fields);
    NamesFoldNicks(s, channel, fields);
    if NameKey(b) != NameKey(a) && NameKey(c) != NameKey(a) {
      NamesFoldLastWins(s, channel, fields, 0);
    }
  }

  /** A worked reply: "@alice +bob carol" on an empty state gives the channel
      exactly alice, bob and carol, and alice a bare identity. */
  lemma NamesExample(channel: string, reply: string)
    requires reply == "@alice +bob carol"
    ensures var t := NamesStep(Fresh(), channel, reply);
      && channel in t.channels && t.channels[channel].members == {"alice", "bob", "carol"}
      && "alice" in t.nicks && t.nicks["alice"] == Bare("alice")
  {
    ExampleFields(reply);
    ExampleKeyAlice();
    ExampleKeyBob();
    ExampleKeyCarol();
    NamesThreeFields(Fresh(), channel, "@alice", "+bob", "carol");
  }

  /** Empty fields are not skipped: when the reply has an empty field (it is
      empty, or has a doubled, leading or trailing space), the empty string
      becomes a member of the channel and a bare nickname. */
  lemma NamesEmptyField(s: Store, channel: string, reply: string)
    requires "" in Split(reply)
    ensures var t := NamesStep(s, channel, reply);
      && channel in t.channels && "" in t.channels[channel].members
      && "" in t.nicks && t.nicks[""] == Bare("")
  {
    StripPlain("");
    assert NameKey("") == "";
    assert "" in NameKeys(Split(reply));
    NamesChannels(s, channel, reply);
    NamesIdentities(s, channel, reply);
  }

  /** A trailing space, as servers often send at the end of a 353 reply,
      gives such an empty field. */
  lemma TrailingSpaceField(nick: string, reply: string)
    requires ' ' !in nick && reply == nick + " "
    ensures Split(reply) == [nick, ""]
  {
    assert JoinFields([nick, ""]) == reply;
    SplitJoin([nick, ""]);
  }

  // ---------------------------------------------------------------- who

  /** A WHO reply adds the lowered nickname to that channel and records the
      full mask under it, replacing any earlier (bare) entry; nothing else
      changes. */
  lemma WhoEffect(s: Store, channel: string, nick: string, user: string, host: string)
    ensures var t := WhoStep(s, channel, nick, user, host);
      && t.channels.Keys == s.channels.Keys + {channel}
      && t.channels[channel].members == Get(s.channels, channel).members + {Lower(nick)}
      && (forall name :: name in s.channels && name != channel ==> t.channels[name] == s.channels[name])
      && t.nicks.Keys == s.nicks.Keys + {Lower(nick)}
      && t.nicks[Lower(nick)].Full?
      && t.nicks[Lower(nick)].mask.Text() == nick + "!" + user + "@" + host
      && (forall n :: n in s.nicks && n != Lower(nick) ==> t.nicks[n] == s.nicks[n])
  {
  }

  /** A WHO after a NAMES reply upgrades the bare identity to the full mask. */
  lemma WhoAfterNames(s: Store, channel: string, nicknames: string, nick: string, user: string, host: string)
    requires Lower(nick) in NameKeys(Split(nicknames))
    ensures Lower(nick) in NamesStep(s, channel, nicknames).nicks
    ensures NamesStep(s, channel, nicknames).nicks[Lower(nick)].Bare?
    ensures WhoStep(NamesStep(s, channel, nicknames), channel, nick, user, host).nicks[Lower(nick)]
            == Full(Mask(nick, user, host))
  {
    NamesIdentities(s, channel, nicknames);
  }

  // ---------------------------------------------------------------- invariant

  /** The invariant implies what the channel model promises: operators are
      members. */
  lemma ValidOpsAreMembers(s: Store, name: string)
    requires Valid(s) && name in s.channels
    ensures s.channels[name].ops <= s.channels[name].members
  {
  }

  /** Every handler the plugin registers keeps the invariant, whatever the
      event and however the handler ends. */
  lemma HandlersKeepValid(s: Store, mask: Mask, event: Command, channel: string, botNick: string,
                          nicknames: string, nick: string, user: string, host: string)
    requires Valid(s)
    ensures Valid(DispatchStep(s, mask, event, channel, botNick).store)
    ensures Valid(NamesStep(s, channel, nicknames))
    ensures Valid(WhoStep(s, channel, nick, user, host))
    ensures Valid(Fresh())
  {
    match event {
      case JOIN => JoinKeepsValid(s, mask, channel, botNick);
      case PART => PartKeepsValid(s, mask, channel, botNick);
      case QUIT => QuitKeepsValid(s, mask, botNick);
    }
    NamesFoldKeepsValid(s, channel, Split(nicknames));
  }
}
