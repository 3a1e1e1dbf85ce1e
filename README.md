# irc3 user list, modelled in Dafny

irc3's user-list plugin (`irc3/plugins/userlist.py`) keeps the bot's view of
the IRC network in two maps:

- `channels`: channel name to `Channel`, a set of nicknames with an `ops` set;
- `nicks`: nickname to the last identity seen for it, either a full
  `nick!user@host` mask or a bare nickname.

Event handlers update these maps in place: `join`, `part` and `quit` (JOIN,
PART and QUIT of RFC 2812, sections 3.2.1, 3.2.2 and 3.1.7); `names` (numeric
353, RPL_NAMREPLY); and `who` (numeric 352, RPL_WHOREPLY). `connection_lost`
starts both maps over.

The project has three modules:

- `IrcText` (`irc_text.dfy`) holds the string operations the handlers apply:
  - `str.lower`, limited to ASCII (`Lower`);
  - `str.strip('+%@')` (`Strip`);
  - `str.split(' ')` (`Split`);
  - the user mask (`Mask`, with `LNick` and its text `nick!user@host`).
- `UserlistPlugin` (`userlist.dfy`) holds the data model:
  - `Channel`, `Identity`, `Store` and `Outcome`;
  - one step function per handler. It gives the state the handler leaves
    behind and whether it raised `KeyError`;
  - the class `Userlist`. Its fields `channels` and `nicks` are updated by
    methods written like the handlers: set adds and removes, `del`, a loop
    over the channels in `Quit`, a loop over the reply fields in `Names`.
    Each method is proved to end in exactly the state its step function
    gives, and to keep the invariant below;
  - the invariant `Valid`: every channel member has a `nicks` entry and no
    `ops` set is ever filled. One lemma per handler shows that the handler
    keeps it.
- `UserlistProperties` (`userlist_properties.dfy`) holds the lemmas about the
  step functions:
  - the effect and frame of each handler;
  - the invariant, kept by every handler and by the dispatch;
  - sequences of events.

A Python `KeyError` is not excluded by a precondition. It is modelled as
`Outcome.KeyError(key)`, together with the partial state the handler leaves
behind. Three cases matter:

- a PART by someone else first makes the `defaultdict` create the channel,
  and only then does `set.remove` raise;
- a QUIT has already taken the nickname out of every channel when
  `del nicks[nick]` raises;
- a PART by the bot of an untracked channel raises from `del`, which creates
  nothing.

Three behaviours of the code are easy to miss, and the model keeps them:

- `join` stores `mask.nick` as written, both in the channel and as the
  `nicks` key, while `part` and `quit` look up `mask.lnick`. So a joiner with
  capitals in its nickname cannot be parted: see `MixedCaseJoinThenPartFails`.
- `names` applies `strip('+%@')`, which removes markers from both ends of a
  field. It does not skip empty fields: an empty reply, or a doubled, leading
  or trailing space, files the empty string as a nickname. See
  `NamesEmptyField` and `TrailingSpaceField`.
- A PART or QUIT for a user who is absent raises `KeyError`, so neither is
  idempotent: see `PartTwiceRaises` and `QuitTwiceRaises`.

## Model

| member | source | states |
|---|---|---|
| `UserlistPlugin.Userlist.constructor` | irc3/plugins/userlist.py:39-41 | a new plugin starts with no channel and no nickname |
| `UserlistPlugin.Userlist.ConnectionLost` | irc3/plugins/userlist.py:43-45 | from any state, both maps become empty and the invariant holds; a second call therefore changes nothing |
| `UserlistPlugin.Userlist.Join` | irc3/plugins/userlist.py:51-55 | the maps end exactly as `JoinStep` says: the un-lowered nickname added to the channel (created if missing) and mapped to the mask, unless the lowered nickname is the bot's; a state satisfying the invariant still satisfies it afterwards |
| `UserlistPlugin.Userlist.Part` | irc3/plugins/userlist.py:57-64 | the maps and the `KeyError` outcome end exactly as `PartStep` says, including the partial state left when `set.remove` or `del` raises; a state satisfying the invariant still satisfies it afterwards |
| `UserlistPlugin.Userlist.Quit` | irc3/plugins/userlist.py:66-74 | the loop over all channels removes the lowered nickname wherever it is a member; the state and outcome end as `QuitStep` says, a reset when the bot quits; a state satisfying the invariant still satisfies it afterwards |
| `UserlistPlugin.Userlist.Names` | irc3/plugins/userlist.py:77-83 | the loop over the space-split fields ends in the state `NamesFold` gives for those fields in order; a state satisfying the invariant still satisfies it afterwards |
| `UserlistPlugin.Userlist.Who` | irc3/plugins/userlist.py:86-89 | the maps end as `WhoStep` says: lowered nickname added to the channel, mapped to the mask built from nick, user and host; a state satisfying the invariant still satisfies it afterwards |
| `UserlistPlugin.Userlist.JoinPartQuit` | irc3/plugins/userlist.py:47-49 | JOIN, PART and QUIT are routed to the handler of the same lowered name, with the same state and outcome; a state satisfying the invariant still satisfies it afterwards |
| `UserlistProperties.ResetIsEmpty` | irc3/plugins/userlist.py:66-69 | the reset state has no channel and no nickname and satisfies the invariant; a QUIT by the bot gives that state from any state and cannot raise |
| `UserlistProperties.JoinEffect` | irc3/plugins/userlist.py:51-55 | a JOIN by someone else adds `mask.nick` to that channel (creating it), keeps its ops, records `nicks[mask.nick] = mask`, and leaves every other channel and nickname unchanged |
| `UserlistProperties.JoinBySelf` | irc3/plugins/userlist.py:52-53 | a JOIN whose lowered nickname is the bot's lowered nickname changes neither map |
| `UserlistProperties.JoinOnFresh` | irc3/plugins/userlist.py:51-55 | on an empty state a JOIN by someone else gives exactly one channel with one member and one identity |
| `UserlistProperties.JoinExample` | irc3/plugins/userlist.py:14-20 | the module's documented example: `gawel!user@host` joining `#chan` gives `{'#chan': {'gawel'}}` and `{'gawel': 'gawel!user@host'}` |
| `UserlistProperties.PartBySelf` | irc3/plugins/userlist.py:58-60 | a PART by the bot removes exactly that channel key, raises `KeyError(channel)` if and only if it was not tracked (then changing nothing), and never touches `nicks` |
| `UserlistProperties.PartByOther` | irc3/plugins/userlist.py:61-64 | a PART by someone else raises if the lowered nickname is not a member, after creating the channel entry if it was missing; otherwise it removes that nickname from that one channel; its `nicks` entry remains if and only if it is still in some channel; the handler raises if and only if that entry was due for deletion but absent |
| `UserlistProperties.JoinThenPart` | irc3/plugins/userlist.py:51-64 | for a lowercase nickname, JOIN then PART of the same channel succeeds, leaves it out of the channel, and forgets its identity when it was in no other channel |
| `UserlistProperties.MixedCaseJoinThenPartFails` | irc3/plugins/userlist.py:51-64 | for a nickname with capitals whose lowered form is not already a member, JOIN then PART raises `KeyError(lnick)` and the joiner stays in the channel |
| `UserlistProperties.PartTwiceRaises` | irc3/plugins/userlist.py:61-62 | repeating a successful PART by someone else raises `KeyError` and changes nothing |
| `UserlistProperties.QuitByOther` | irc3/plugins/userlist.py:70-74 | a QUIT by someone else leaves the lowered nickname in no channel, keeps the channel names and each channel's other members and ops, and removes its `nicks` entry; it raises if and only if there was no entry |
| `UserlistProperties.QuitTwiceRaises` | irc3/plugins/userlist.py:71-74 | a second QUIT for the same nickname raises `KeyError` and changes nothing |
| `UserlistProperties.AddNameChannels` | irc3/plugins/userlist.py:80-82 | one names field adds its stripped, lowered key to the channel (creating it) and changes no other channel |
| `UserlistProperties.AddNameNicks` | irc3/plugins/userlist.py:80-83 | one names field maps its key to the stripped field in original case and changes no other nickname |
| `UserlistProperties.NamesFoldChannels` | irc3/plugins/userlist.py:79-82 | over any sequence of fields, the channel gains exactly the fields' keys and keeps its ops; other channels are unchanged |
| `UserlistProperties.NamesFoldNicks` | irc3/plugins/userlist.py:79-83 | over any sequence of fields, `nicks` gains exactly the fields' keys; other entries are unchanged |
| `UserlistProperties.NamesFoldLastWins` | irc3/plugins/userlist.py:79-83 | a key shared by several fields maps to the stripped form of the last of them |
| `UserlistProperties.NamesChannels` | irc3/plugins/userlist.py:77-82 | after `names` the channel is tracked and holds its old members plus the keys of the reply; no member of any channel is removed; other channels are unchanged |
| `UserlistProperties.NamesIdentities` | irc3/plugins/userlist.py:77-83 | after `names` each key of the reply maps to a bare nickname that lowers to that key; other `nicks` entries are unchanged |
| `UserlistProperties.NamesThreeFields` | irc3/plugins/userlist.py:79-83 | a three-field reply adds the three keys, and maps the first key to the first stripped field when no later field shares it |
| `UserlistProperties.NamesExample` | irc3/plugins/userlist.py:77-83 | "@alice +bob carol" on an empty state gives the channel exactly {alice, bob, carol} and maps alice to the bare "alice" |
| `UserlistProperties.NamesEmptyField` | irc3/plugins/userlist.py:78-83 | whenever `split(' ')` of the reply yields an empty field, that field is not skipped: the empty string becomes a member of the channel and maps to the bare empty nickname |
| `UserlistProperties.TrailingSpaceField` | irc3/plugins/userlist.py:78 | a reply ending in one space after a nickname splits into that nickname and an empty field |
| `UserlistProperties.WhoEffect` | irc3/plugins/userlist.py:86-89 | WHO adds the lowered nickname to that channel and maps it to a full mask whose text is `nick!user@host`; other channels and nicknames are unchanged |
| `UserlistProperties.WhoAfterNames` | irc3/plugins/userlist.py:83-89 | a bare identity left by NAMES is replaced by the full mask from a later WHO |
| `UserlistProperties.ValidOpsAreMembers` | irc3/plugins/userlist.py:30-33 | under the invariant, a channel's ops are a subset of its members |
| `UserlistPlugin.JoinKeepsValid` | irc3/plugins/userlist.py:51-55 | JOIN keeps the invariant: members have `nicks` entries, ops stay empty |
| `UserlistPlugin.PartKeepsValid` | irc3/plugins/userlist.py:57-64 | PART keeps the invariant on every path, including those that raise |
| `UserlistPlugin.QuitKeepsValid` | irc3/plugins/userlist.py:66-74 | QUIT keeps the invariant on every path, including the one that raises |
| `UserlistPlugin.NamesFoldKeepsValid` | irc3/plugins/userlist.py:79-83 | any sequence of names fields keeps the invariant |
| `UserlistPlugin.WhoKeepsValid` | irc3/plugins/userlist.py:86-89 | WHO keeps the invariant |
| `UserlistProperties.HandlersKeepValid` | irc3/plugins/userlist.py:47-89 | every registered handler, and the JOIN/PART/QUIT dispatch for each event, keeps the invariant however it ends |
| `IrcText.LowerChars` | irc3/plugins/userlist.py:81 | lowering maps each ASCII capital to its small letter, leaves every other character alone, and leaves no capital |
| `IrcText.LowerIdempotent` | irc3/plugins/userlist.py:81 | lowering twice is lowering once |
| `IrcText.StripLeftRemovesPrefix` | irc3/plugins/userlist.py:80 | the left strip drops a marker-only prefix and keeps a suffix that does not start with a marker |
| `IrcText.StripRightRemovesSuffix` | irc3/plugins/userlist.py:80 | the right strip drops a marker-only suffix and keeps a prefix that does not end with a marker |
| `IrcText.StripSpec` | irc3/plugins/userlist.py:80 | `strip('+%@')` leaves the middle between a marker-only prefix and a marker-only suffix, neither starting nor ending with a marker |
| `IrcText.StripIdempotent` | irc3/plugins/userlist.py:80 | stripping twice is stripping once |
| `IrcText.StripMarked` | irc3/plugins/userlist.py:80 | one leading marker before a plain nickname is removed |
| `IrcText.SplitFieldsHaveNoSpace` | irc3/plugins/userlist.py:78 | no field produced by `split(' ')` contains a space |
| `IrcText.JoinSplit` | irc3/plugins/userlist.py:78 | joining the fields of `split(' ')` with single spaces gives the reply back |
| `IrcText.SplitJoin` | irc3/plugins/userlist.py:78 | splitting space-free fields joined by single spaces gives those fields back |
| `IrcText.ReadText` | irc3/plugins/userlist.py:88 | the mask text `nick + '!' + user + '@' + host` gives back its three parts when the nick has no `!` and the user no `@` |
| `IrcText.TextInjective` | irc3/plugins/userlist.py:88 | two well-formed masks with the same text are the same mask, so storing the triple loses nothing |

## Left out

- Event registration and wire parsing are not modelled. This covers the
  `@plugin` and `@event` decorators and the event patterns: the regular
  expression at line 76, and the `rfc` constants named at lines 47 and 85,
  which are defined outside this file. The handlers take the already-extracted channel, nicknames,
  nick, user and host as inputs.
- The JOIN/PART/QUIT dispatch `getattr(self, event.lower())` is a `match` on
  the three event names the event pattern admits. Other names cannot reach
  it and are not modelled.
- `self.bot` is not modelled as an object. Its current nickname,
  `self.bot.nick`, is the `botNick` parameter of each handler. How the bot
  changes its nickname belongs to the rest of irc3 and is not part of this
  model.
- `IrcString` parsing (`irc3/utils.py`) is not part of this model. A mask is
  the datatype `Mask` with its three parts given. `ReadMask` reads parts back
  only to show that the text determines them.
- Python's `str.lower` is Unicode-aware. `Lower` lowers ASCII letters only.
  Non-ASCII capitals are therefore not lowered in the model.
- `Channel` objects are mutated in place inside the dict. The model keeps
  them as values in a map field. Inside the plugin no second reference to a
  `Channel` exists, so nothing is lost there.
- Code outside the plugin that holds `channels`, `nicks` or a `Channel` is
  not modelled. The plugin exposes both maps directly and has no query
  methods, and the module's own example reads `plugin.channels` from outside
  (lines 16-20). Such a holder would see the in-place `remove` of `part` and
  `quit` (lines 62 and 73). After `connection_lost` assigns new maps (lines
  44-45) it would keep the old, stale ones. The model has no such holder.
- Locking, queuing and concurrency are not modelled: the code has none and
  runs each handler synchronously.
- `tests/test_bot.py` is not part of this model. It tests bot plumbing:
  PING/PONG, NICK, PART/JOIN lines, autojoin and plugin lookup.
