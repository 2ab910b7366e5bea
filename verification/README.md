# A verified model of the game server's stateful engines

This project models the self-contained stateful engines of the ROSE Online server under `VS_Projects/src` and proves what
they promise over every input, every run or every interleaving. Check it with `dafny verify dfyconfig.toml`.

Code that the server runs by changing fields step by step is a class here, with the source's loops and branches, and
each method is proved against a specification function of the old state. The theorems are then lemmas about those
functions: invariants over runs, refinements of a simple form, round trips, and exact conditions where the code does less
than one would expect of it.

| file | what it models |
|---|---|
| `Bytes.dfy`, `Cipher.dfy` | little-endian words, the packet cipher, the crypt-table shuffle |
| `Framing.dfy`, `Packets.dfy` | the incremental packet parser under any fragmentation, the typed field macros end to end |
| `BuffLedger.dfy`, `BuffRuns.dfy`, `Characters.dfy` | buff slots, the incremental stat arithmetic, runs of applications |
| `BuffAmounts.dfy` | what one cast comes to in plain numbers: amounts, statuses, luck, the slot written |
| `BuffOverrun.dfy` | when a debuff leaves the declared slots, on one cast and over whole runs |
| `MonsterStats.dfy` | the from-scratch stat computations, and when they agree with the incremental ones |
| `MonsterAi.dfy`, `AipFiles.dfy`, `Monsters.dfy` | the rule interpreter, with conditions and actions as arbitrary state transformers; the loader's filing of rules; the monster object |
| `DungeonSlots.dfy` | the instance tables as a step machine: many creators, one destroyer, critical sections as steps |
| `DungeonCalls.dfy`, `DungeonTicks.dfy`, `Dungeons.dfy` | whole calls in series, the clock of one instance over ticks, the manager itself |
| `Arena.dfy`, `ArenaRuns.dfy`, `ArenaManager.dfy`, `ArenaFloor.dfy`, `ArenaPlay.dfy` | the arena's match manager, its runs, whom its loops reach, and what its calls come to for the players |
| `Chatrooms.dfy`, `ChatRequests.dfy`, `ChatServer.dfy` | chatroom ids, membership over runs, list cleaning, what a request gets |
| `Erasing.dfy`, `Wrappers.dfy` | lists without repetitions and the erasing loop, the optional value |
| `BuffBot.dfy`, `StatSpender.dfy` | the bot's buff queue and its stat-point spender |

## What the code does differently from what one expects

Each of these is a theorem with an exact condition, not a remark:

- Dungeon creation looks a party up in one critical section and creates in another, so two callers of one party can both
  create (`RaceBreaksOneToOne`). One instance a party holds under every interleaving in which no key is looked up while
  somebody is creating for it (`OneInstanceAParty`), and a publication keeps it exactly when the key has no entry
  (`PublishOneToOneIff`). Slot safety needs no such care (`SlotSafety`).
- A stat has two upward statuses but one pointer; the recomputation agrees with the cached stat exactly when the other
  upward status is worth nothing (`CacheOverRuns`, `TwoUpStatusesDisagree`).
- The move-speed arm stores its slot even when the sum passes 32 bits; `SpeedBalanceIff` says when the ledger survives,
  `DashWraps` is a cast where it does not. A recast leaves every stat as it is (`RecastChangesNothingIff`), except that a
  lucky one on move speed must not pass 32 bits in turn, or after a first cast that did must come to the same amount:
  `DashAgainLosesTheSpeed` is a dash that works and, cast again, leaves no speed.
- `MagicStatus` is declared with 30 entries (`World_Server/character.h:72`) while the debuff searches run to slot 31. Slots
  30 and 31 of the model are the memory behind the table: it belongs to other fields (`shield_reflect` and the AI
  variables) and may hold anything else at every cast; the arm of status 35 is one of its writers
  (`World_Server/Buff.cpp:337`). `SearchReadsPastDeclared` says when a search looks there, `SearchEndsPastDeclared` when it
  ends and writes there, `EscapeBalanceIff` what must be true of effect and memory before the cast for the ledger of the 30
  declared slots to survive that. Order among the declared
  slots survives always (`OrderOverRuns`). The ledger does over every run whose casts stay inside (`LedgerOverRuns`), which
  holds with fewer than fifteen other debuffs on the table (`RoomKeepsInside`, `InsideIffRoom`) and so over runs with at
  most fifteen different debuffs (`LedgerWithFewDebuffs`). `WordBehindTakesTheCast` is one cast, `SixteenDebuffsOverrun` a
  run of sixteen, where it does not.
- `StartMatch` walks map 9's player list while respawning moves the player to the end of that list, so whoever follows a
  respawned player is passed over: everybody in game gets a fresh start exactly when no two of them are neighbours in the
  list (`EveryoneIsReadiedIff`; `SecondOfTwoIsPassedOver` is the smallest match).
- `GetChatroomID` answers 0xff when nothing is free, never the 0xffff its caller looks for; a creation then overwrites room
  0xff. `NextIdIs` and `CreateKeepsIff` give the exact conditions, `FullHouseLosesARoom` a server where it happens.
- The chatroom cleaning loop restarts at position 0 and steps on at once, so it leaves an offline member behind exactly
  when the first two are both offline (`CleanedIs`, `SecondOfTwoStays`).
- A rule that fires with a hoisted action whose opcode is out of range makes the rule loop neither stop nor move on
  (`RepeatsIff`): the same rule takes another turn on the monster its conditions have left behind. That goes on for ever if
  they leave it alone (`RepeatsForEver`, `OutOfRangeRuleRepeats`), and ends if they fail the next time
  (`FickleRuleSettles`). The loop, turn by turn, ends exactly when at every key it comes to some turn neither repeats nor
  reads a missing action (`LoopEndsIffSane`), and that is all `DoAi` asks for. Only hand-made rules repeat: the loader
  hoists no other opcode than 28.
- The loader sets the offsets of the LTB and QSD actions only for a rule that has actions. A rule without any keeps 0 for
  both and, when it fires, reads action 0 of a table that is not there (`EmptyRuleFaults`). A loaded rule can be fired
  exactly when it has an action (`LoadedRunnableIff`), so for the loader's rules the loop ends exactly when no rule without
  actions fires in its turn (`LoadedSaneIff`); rules with every hoisted opcode in range need no further check
  (`RunnableIsSane`).

- Rules are filed under a key in which an event has room for 256, and the walk goes from key to key. With fewer than 256
  rules for the event `DoAi` visits exactly rules 0, 1, ... of that event of the monster's own or special AI; with all 256
  it would go on into the next event (`FullEventRunsOn`).
- The warnings of a dungeon share one `else if`: five minutes are announced at the first tick with five left or less that
  does not announce the last one (`FiveMinutesIff`), so late when ticks are far apart. So are ten (`TenMinutesIff`); the
  last minute never is (`OneMinuteIff`).
- A chatroom password of more than four characters is dropped (`ChatServer.CCharServer.CreateRoom`), and a room without one
  is open to any word (`NoPasswordNoGuard`).

## Model

| member | source | states |
|---|---|---|
| `Bytes.LeValueOfLeBytes` | VS_Projects/src/Common/sockets.h:118-121 | a number stored little-endian in a field of its width is the number read back |
| `Bytes.LeBytesOfLeValue` | VS_Projects/src/Common/sockets.h:124-127 | any bytes are the little-endian form of the number they read as |
| `Bytes.FourBytesAre` | VS_Projects/src/Common/sockets.h:124-127 | the first of four bytes is the least significant |
| `Cipher.CryptPacket` | VS_Projects/src/Common/rosecrypt.cpp:91-98 | the in-place loop leaves the cipher of the packet, for every declared size |
| `Cipher.BodyIsMasked` | VS_Projects/src/Common/rosecrypt.cpp:93-96 | a byte changes exactly between the size word and two short of the declared size, and there to itself xor 0x61 |
| `Cipher.CryptIsInvolution` | VS_Projects/src/Common/rosecrypt.cpp:91-98 | encrypting twice gives the packet back and the size word survives, whatever size is declared |
| `Cipher.CryptOfPrefix` | VS_Projects/src/Common/SocketClient.cpp:94-97 | decrypting a packet in the receive buffer touches nothing behind the packet |
| `Cipher.ShuffledIsPermutation` | VS_Projects/src/Common/rosecrypt.cpp:71-88 | after any number of shuffle steps with any checksum the table holds every byte value exactly once |
| `Cipher.RoundExchanges` | VS_Projects/src/Common/rosecrypt.cpp:79-87 | round n exchanges entry n with the one at the sum of the checksum byte whose turn it is, entry n and the last place; nothing else moves |
| `Cipher.TableStarts` | VS_Projects/src/Common/rosecrypt.cpp:74 | before the first round entry i holds byte i |
| `Cipher.BuildCryptTable` | VS_Projects/src/Common/rosecrypt.cpp:71-88 | entries 8..263 are a permutation of all byte values, for every checksum of length at least one |
| `Framing.FeedFollowsParse` | VS_Projects/src/Common/SocketClient.cpp:37-161 | one receive of any fragment moves bytes from the stream into the buffer and changes nothing about how the rest parses |
| `Framing.PumpIsParse` | VS_Projects/src/Common/SocketClient.cpp:37-161 | however a stream is cut, the packets delivered and whether the connection survives are those of the one-shot parse |
| `Framing.CutsDoNotMatter` | VS_Projects/src/Common/SocketClient.cpp:37-161 | two ways of cutting one stream are indistinguishable |
| `Framing.ClientSocket.ReceiveData` | VS_Projects/src/Common/SocketClient.cpp:37-161 | the framing fields and buffer after one call are those of one receive, with no write past the buffer |
| `Framing.ClientSocket.ClientMainThread` | VS_Projects/src/Common/SocketClient.cpp:244-271 | the receive loop delivers exactly the packets of the one-shot parse and drops the connection exactly when the parse does |
| `Packets.FieldsReadBack` | VS_Projects/src/Common/sockets.h:116-128 | every field added is read back at its cumulative offset from 1, 2, 4 or 8 bytes, modulo 2^8, 2^16, 2^32 or 2^64 |
| `Packets.TextReadsBack` | VS_Projects/src/Common/sockets.h:118-123 | a string with its terminator added reads back up to its first NUL |
| `Packets.StreamParses` | VS_Projects/src/Char_Server/charpackets.cpp:474-478 | encrypted packets sent back to back parse as exactly the packets sent |
| `Packets.EndToEnd` | VS_Projects/src/Char_Server/charpackets.cpp:474-478 | a conversation of packets of size 6..0x600, encrypted and received in any fragments, arrives packet for packet |
| `Packets.BadSizeDrops` | VS_Projects/src/Common/SocketClient.cpp:60-92 | a header that declares less than 6, or more than 0x600 with bytes to come, ends the connection after exactly the packets before it |
| `Packets.PartIsKept` | VS_Projects/src/Common/SocketClient.cpp:44-58 | a packet that has not arrived whole is kept, byte for byte, with the connection open |
| `Packets.RefusalDrops` | VS_Projects/src/Common/SocketClient.cpp:94-161 | a packet its handler refuses is the last delivered, whatever follows |
| `Packets.FieldsEndToEnd` | VS_Projects/src/Char_Server/charpackets.cpp:474-478 | typed fields written, encrypted, cut up and received give the same command and values at the same offsets |
| `Packets.Packet.AddAll` | VS_Projects/src/Common/sockets.h:116-123 | a run of add macros leaves the size and body that go on the wire |
| `BuffLedger.SearchReadsPastDeclared` | VS_Projects/src/World_Server/Buff.cpp:904-915 | the search looks past the declared table on every cast of a debuff that no declared slot holds, and on no other |
| `BuffLedger.SearchEndsPastDeclared` | VS_Projects/src/World_Server/Buff.cpp:904-929 | it ends there exactly when no declared slot holds the debuff and the memory behind reads as it, or as free with all declared slots taken |
| `BuffLedger.SlotBalances` | VS_Projects/src/World_Server/Buff.cpp:934-1066 | replacing a status's slot moves the slots' tally by exactly what the new value moves the stat |
| `BuffRuns.ApplyKeepsOrder` | VS_Projects/src/World_Server/Buff.cpp:150-808 | no application gives a status a second slot or puts an effect outside its band |
| `BuffRuns.ApplyBalances` | VS_Projects/src/World_Server/Buff.cpp:342-530 | any application that stays among the declared slots keeps each of the six stats equal to its start plus its live slots, for move speed unless the sum wraps |
| `BuffRuns.EscapeBalanceIff` | VS_Projects/src/World_Server/Buff.cpp:904-929 | a record past the declared slots keeps the ledger exactly when the effect is worth, before the cast, what the memory there reads as having taken off already |
| `BuffRuns.SpeedBalanceIff` | VS_Projects/src/World_Server/Buff.cpp:498-530 | exactly when, by what is known before the cast, a lucky move-speed application keeps the ledger, in a declared slot or behind the table |
| `BuffRuns.DashWraps` | VS_Projects/src/World_Server/Buff.cpp:498-530 | a dash on a speed just short of 2^32: the speed drops to 0 while its slot stores 10 |
| `BuffRuns.OrderOverRuns` | VS_Projects/src/World_Server/Buff.cpp:826-932 | over every run, whatever happens behind the table, each status holds at most one declared slot, buffs in 0..14 and debuffs in 15..29 |
| `BuffRuns.LedgerOverRuns` | VS_Projects/src/World_Server/Buff.cpp:342-530 | over every run whose casts on a stat stay among the declared slots, whatever happens behind them, all six stats equal their start plus live up-slots less live down-slots, in 32-bit arithmetic; move speed if none of its casts wraps |
| `BuffOverrun.RoomKeepsInside` | VS_Projects/src/World_Server/Buff.cpp:904-929 | with fewer than fifteen other debuffs on the table, and no word behind that reads as the status, the cast stays inside |
| `BuffOverrun.InsideIffRoom` | VS_Projects/src/World_Server/Buff.cpp:904-929 | exactly then, when the memory behind reads as free |
| `BuffOverrun.LedgerWithFewDebuffs` | VS_Projects/src/World_Server/Buff.cpp:342-530 | the ledger of all six stats over every run with at most fifteen different debuffs, whatever is behind the table short of the status being cast; for move speed if none of its casts wraps |
| `BuffOverrun.WordBehindTakesTheCast` | VS_Projects/src/World_Server/Buff.cpp:331-337 | one defense-down cast on a new character is enough when the word behind the table reads as its status: the defense falls and no declared slot accounts for it |
| `BuffOverrun.SixteenDebuffsOverrun` | VS_Projects/src/World_Server/Buff.cpp:904-929 | sixteen casts, with nothing but zeros behind the table, after which the defense has fallen and no declared slot accounts for it |
| `BuffRuns.RecastChangesNothingIff` | VS_Projects/src/World_Server/Buff.cpp:971-1065 | recasting the same effect, flat or percentage, leaves all six stats as the first cast left them; on move speed, for a lucky recast, exactly when its sum stays in 32 bits or, after a first cast whose sum did not, when it comes to the same amount |
| `BuffRuns.DashAgainLosesTheSpeed` | VS_Projects/src/World_Server/Buff.cpp:498-530 | a dash of 10 on a speed fifteen short of 2^32 works, and cast again leaves the speed at 0 |
| `Characters.Character.GetBuffValue` | VS_Projects/src/World_Server/Buff.cpp:811-1066 | position, amount and new value are those of the specification that the ledger and the amounts are about |
| `BuffAmounts.AmountIs` | VS_Projects/src/World_Server/Buff.cpp:971-982 | an amount is the percentage of the stat rounded down plus the number with its bonus |
| `BuffAmounts.CastMovesStat` | VS_Projects/src/World_Server/Buff.cpp:330-530 | a cast, lucky or on the attack, of a status not held: the stat of that status moves by exactly that amount in its direction, the first free slot of the band holds status, buff, amount, duration and time, the stat's own pointer is set to it, nothing else changes |
| `BuffAmounts.TwentyPercentOfAHundred` | VS_Projects/src/World_Server/Buff.cpp:971-982 | twenty percent on an attack of 100 make it 120 |
| `BuffAmounts.UnluckyChangesNothing` | VS_Projects/src/World_Server/Buff.cpp:370-530 | without luck only the attack is moved |
| `BuffAmounts.AilmentFills` | VS_Projects/src/World_Server/Buff.cpp:162-262 | a lucky ailment takes the first free debuff slot under its own number, with no value |
| `BuffAmounts.OtherStatFills` | VS_Projects/src/World_Server/Buff.cpp:283-808 | the arms of other stats take the first free slot of their band, extra and shield damage under their own number |
| `BuffAmounts.DispelTakesTheTime` | VS_Projects/src/World_Server/Buff.cpp:263-282 | a lucky dispel takes the time off thirty slots and off nothing else |
| `BuffAmounts.PurifyTakesTheTime` | VS_Projects/src/World_Server/Buff.cpp:783-798 | a lucky purification takes the time off its own slot |
| `Characters.Character.CheckABuffs` | VS_Projects/src/World_Server/Buff.cpp:150-808 | slots, stats and pointers change as one application does, and the answer is whether something was recorded |
| `Characters.Character.AddBuffs` | VS_Projects/src/World_Server/Buff.cpp:24-43 | a skill's statuses are applied one after the other, so the run theorems hold of it, and the answer is that of the last effect |
| `Characters.NoChangesNothing` | VS_Projects/src/World_Server/Buff.cpp:150-808 | a cast answered with no has changed nothing, dispels apart |
| `Characters.YesLeavesASlot` | VS_Projects/src/World_Server/Buff.cpp:150-808 | one answered with yes has left its status, duration and time in a slot, purifications apart |
| `Characters.LastCastAnswers` | VS_Projects/src/World_Server/Buff.cpp:24-43 | a skill answers with what its last status does, whatever came before |
| `MonsterStats.TallyByStatus` | VS_Projects/src/World_Server/MonsterStats.cpp:25-62 | a stat's tally is what its two upward statuses store less what its downward status stores |
| `MonsterStats.SlotsAgreeIff` | VS_Projects/src/World_Server/MonsterStats.cpp:25-62 | the cached stat equals the recomputation exactly when the upward status the pointer does not name is worth nothing |
| `MonsterStats.CacheOverRuns` | VS_Projects/src/World_Server/MonsterStats.cpp:158-264 | over every run whose casts stay inside, for all six stats, the pointers stay right and cache and recomputation agree exactly under that condition |
| `MonsterStats.OneUpStatusAgrees` | VS_Projects/src/World_Server/MonsterStats.cpp:65-101 | when one of a stat's two upward statuses is never cast, cache and recomputation always agree |
| `MonsterStats.BaseIs` | VS_Projects/src/World_Server/MonsterStats.cpp:65-264 | what each stat is worked out from: row, weapon, shield, defense for no dodge, running or walking speed |
| `MonsterStats.RecomputedIs` | VS_Projects/src/World_Server/MonsterStats.cpp:65-264 | the slot kept for the upward direction is added and the one for the downward taken off |
| `MonsterStats.TwoUpStatusesDisagree` | VS_Projects/src/World_Server/MonsterStats.cpp:25-62 | statuses 18 and 48 in turn on an attack of 100: the cache says 115, the recomputation 105 |
| `MonsterAi.LoadScript` | VS_Projects/src/World_Server/aip/Aip.cpp:216-283 | the loader leaves the offsets of the last LTB and the last QSD trigger, or -1; without actions, 0 and 0 |
| `MonsterAi.LoadedRunnableIff` | VS_Projects/src/World_Server/aip/Aip.cpp:218-283 | a loaded rule can be fired exactly when it has an action |
| `AipFiles.CWorldServer.LoadAip` | VS_Projects/src/World_Server/aip/Aip.cpp:88-300 | the loops over events and rules file rule j of event i under its id, a taken id keeps its rule, and files of new AI numbers stay filed apart |
| `AipFiles.LoadingFiles` | VS_Projects/src/World_Server/aip/Aip.cpp:285-301 | with at most 256 events and rules each, every rule is found under its own id and nothing else is there |
| `AipFiles.WalkOfEvent` | VS_Projects/src/World_Server/MonsterEvents.cpp:302-355 | the walk from an event's first key is the walk over that event's list of rules, if it has fewer than 256 |
| `AipFiles.FullEventRunsOn` | VS_Projects/src/World_Server/aip/Aip.cpp:285 | behind 256 rules comes the first rule of the next event |
| `MonsterAi.FiresIffAllSucceed` | VS_Projects/src/World_Server/MonsterEvents.cpp:358-408 | with two-valued conditions a rule fires exactly when every condition evaluated succeeds, the idle level check waived |
| `MonsterAi.OneConditionFires` | VS_Projects/src/World_Server/MonsterEvents.cpp:358-408 | one condition: 7 fires, 8 does not, opcodes outside 0..32 are passed over, and an idle monster is let off condition 20 |
| `MonsterAi.OneActionTurn` | VS_Projects/src/World_Server/MonsterEvents.cpp:434-497 | one action: opcodes 0..38 run, and an answer of 7 stops the walk except in AIs 1205, 2048 and 2049 |
| `MonsterAi.LtbGoesFirst` | VS_Projects/src/World_Server/aip/Aip.cpp:250-261 | with action 30 in a loaded rule its last action 28 goes first; without, all keep their places |
| `MonsterAi.OrderRunsEachOnce` | VS_Projects/src/World_Server/MonsterEvents.cpp:417-458 | a rule that can be fired runs each in-range action exactly once and no other |
| `MonsterAi.OrderHoistsLtb` | VS_Projects/src/World_Server/MonsterEvents.cpp:417-458 | the hoisted action, in a loaded rule the last LTB, runs first; the others keep their order |
| `MonsterAi.EndIsUnique` | VS_Projects/src/World_Server/MonsterEvents.cpp:349-497 | where the walk ends is determined: the first rule that stops it, or the end of the rules |
| `MonsterAi.RepeatsIff` | VS_Projects/src/World_Server/MonsterEvents.cpp:417-421 | a turn neither stops nor moves on exactly when the rule fires with an out-of-range hoisted opcode |
| `MonsterAi.RepeatsForEver` | VS_Projects/src/World_Server/MonsterEvents.cpp:349-421 | and goes on repeating if the conditions leave the monster as it is |
| `MonsterAi.OutOfRangeRuleRepeats` | VS_Projects/src/World_Server/MonsterEvents.cpp:417-421 | a rule with a hoisted opcode 39 does, for every monster and any number of turns |
| `MonsterAi.EmptyRuleFaults` | VS_Projects/src/World_Server/MonsterEvents.cpp:417-420 | a loaded rule reads a missing action exactly when it fires without having any, and never repeats |
| `MonsterAi.LoadedSaneIff` | VS_Projects/src/World_Server/aip/Aip.cpp:218-283 | what `DoAi` demands of a loader's rules: no rule without actions fires in its turn |
| `MonsterAi.RunnableIsSane` | VS_Projects/src/World_Server/MonsterEvents.cpp:417-421 | what a caller can check beforehand: rules whose hoisted actions are all there and in range meet it, whatever conditions and actions do |
| `MonsterAi.LoopEndsIffSane` | VS_Projects/src/World_Server/MonsterEvents.cpp:349-497 | the loop, turn by turn with every repetition, comes to an end exactly when at every key it comes to some turn neither repeats nor reads a missing action; it ends where the walk rule by rule does, with the same effect |
| `MonsterAi.FickleRuleSettles` | VS_Projects/src/World_Server/MonsterEvents.cpp:417-421 | a rule that repeats once, then fails the condition it has spoilt: the loop moves on and ends |
| `Monsters.CMonster.CheckConditions` | VS_Projects/src/World_Server/MonsterEvents.cpp:358-408 | the condition loop succeeds exactly when the rule fires, and leaves the state up to the first failure |
| `Monsters.CMonster.RunActions` | VS_Projects/src/World_Server/MonsterEvents.cpp:417-458 | the hoisted action and the action loop do what running the actions in order does, with the last result |
| `Monsters.CMonster.RunRule` | VS_Projects/src/World_Server/MonsterEvents.cpp:355-497 | one turn for any rule at all: its effect, and whether it moves on, stops, repeats or reads a missing action |
| `Monsters.CMonster.DoAi` | VS_Projects/src/World_Server/MonsterEvents.cpp:283-512 | for any finite rules on which the loop ends: it takes the rules in key order, each until it settles, up to the first that succeeds; of filed rules exactly rules 0, 1, ... of the event of the monster's special AI or else its own, with the timers the event resets and the composed effect |
| `DungeonSlots.StepKeeps` | VS_Projects/src/World_Server/DungeonManager.cpp:138-258 | every step of every caller and of the destroyer keeps index, list, active map, party map and live instances in agreement |
| `DungeonSlots.SlotSafety` | VS_Projects/src/World_Server/DungeonManager.cpp:138-258 | under every interleaving no slot has two live owners, every active id resolves to its live recorded map, listed once, and no instance is forgotten |
| `DungeonSlots.LookupIsLive` | VS_Projects/src/World_Server/DungeonManager.cpp:115-129 | at any moment a lookup hits exactly when there is an entry, and hands out a live instance of that very key |
| `DungeonSlots.SlotCheckNeverFails` | VS_Projects/src/World_Server/DungeonManager.cpp:246-249 | the destroyer always finds its own map in its slot and frees it |
| `DungeonSlots.PublishOneToOneIff` | VS_Projects/src/World_Server/DungeonManager.cpp:215-218 | a publication keeps one instance a party exactly when the party has no entry |
| `DungeonSlots.OneInstanceAParty` | VS_Projects/src/World_Server/DungeonManager.cpp:98-129 | one instance a party under every interleaving in which no key is looked up while being created for |
| `DungeonSlots.RaceBreaksOneToOne` | VS_Projects/src/World_Server/DungeonManager.cpp:115-129 | the eleven steps by which two callers of one party leave it with two live instances |
| `DungeonCalls.SharedKeyIff` | VS_Projects/src/World_Server/DungeonManager.cpp:104-113 | exactly when two players share a party number, tagged solo numbers included |
| `DungeonCalls.OwnKeyIs` | VS_Projects/src/World_Server/DungeonManager.cpp:47-57 | on an instance one stands for its base zone, elsewhere for the map; with a party for it, alone for oneself; in the fourteen caves only |
| `DungeonCalls.ApplyKeeps` | VS_Projects/src/World_Server/DungeonManager.cpp:98-263 | calls made one at a time keep the tables sound and instances and keys one to one |
| `DungeonCalls.CreatedOneToOneIff` | VS_Projects/src/World_Server/DungeonManager.cpp:132-229 | a whole creation keeps one instance a party exactly when the party has no entry |
| `DungeonCalls.SamePartySameInstance` | VS_Projects/src/World_Server/DungeonManager.cpp:98-129 | over any run of calls a party gets the same instance of its own key until that is destroyed, and nobody else gets it |
| `DungeonCalls.VisitServes` | VS_Projects/src/World_Server/DungeonManager.cpp:132-158 | a visit leaves the party with an instance exactly when it had one or a slot is free |
| `DungeonCalls.DestroyUndoesCreate` | VS_Projects/src/World_Server/DungeonManager.cpp:205-263 | destroying a new instance leaves every table as it was before the creation |
| `DungeonTicks.RemovedWhenEmptyThirtySeconds` | VS_Projects/src/World_Server/DungeonManager.cpp:379-399 | at any tick of any run, removed for emptiness exactly when empty at every tick since one at least thirty seconds of clock back |
| `DungeonTicks.WarnedAtMostOnce` | VS_Projects/src/World_Server/DungeonManager.cpp:422-446 | each of the three warnings is broadcast at most once in the life of an instance |
| `DungeonTicks.OneMinuteIff` | VS_Projects/src/World_Server/DungeonManager.cpp:431-436 | the last minute is announced exactly at the first tick of its thirty minutes with one left or less |
| `DungeonTicks.FiveMinutesIff` | VS_Projects/src/World_Server/DungeonManager.cpp:437-441 | five minutes exactly at the first tick with five left or less that does not announce the last |
| `DungeonTicks.TenMinutesIff` | VS_Projects/src/World_Server/DungeonManager.cpp:442-446 | ten minutes exactly at the first tick with ten left or less that announces neither of the others |
| `Dungeons.DungeonManager.constructor` | VS_Projects/src/World_Server/startup.cpp:327-330 | a server that has loaded its zones has sound tables and no instance |
| `Dungeons.DungeonManager.CreateInstance` | VS_Projects/src/World_Server/DungeonManager.cpp:132-229 | for any base zone and party: takes the first free slot and registers one new instance in every table, or changes nothing; one to one afterwards exactly if the party had no entry |
| `Dungeons.DungeonManager.GetOrCreatePartyInstance` | VS_Projects/src/World_Server/DungeonManager.cpp:98-130 | the recorded instance of the player's base zone and party, created if need be, and of that key always; nothing outside caves or without a loaded base |
| `Dungeons.DungeonManager.HandlePartyWipe` | VS_Projects/src/World_Server/DungeonManager.cpp:286-318 | once: everyone listed goes to the exit in order, from Goblin Cave to map 1, from 31..33 to 22, 41..44 to 24, 56..57 to 54, with a fifth of his points, at least one, and no magic status |
| `Dungeons.DungeonManager.HandleTimeout` | VS_Projects/src/World_Server/DungeonManager.cpp:320-338 | everyone listed goes to those same maps in order, unchanged |
| `Dungeons.DungeonManager.DestroyInstance` | VS_Projects/src/World_Server/DungeonManager.cpp:231-263 | exactly this instance's entries go from every table, and instances and keys stay one to one; nothing happens for a null pointer or an ordinary map |
| `Dungeons.DungeonManager.Update` | VS_Projects/src/World_Server/DungeonManager.cpp:362-453 | destroys exactly the instances whose verdict is not to stay, each once and with nobody left on it, and only advances the clocks of the others |
| `Dungeons.SurvivorsAreInTime` | VS_Projects/src/World_Server/DungeonManager.cpp:401-429 | whoever survives a pass is below its limit and has somebody standing or nobody at all |
| `Dungeons.DestroyedIff` | VS_Projects/src/World_Server/DungeonManager.cpp:379-429 | a pass destroys an instance exactly when it is empty for thirty seconds by its record, everybody on it is down for the first time, or its time is up |
| `Dungeons.SentHome` | VS_Projects/src/World_Server/DungeonManager.cpp:61-95 | the people of a destroyed instance are on their cave's exit map and its list, revived exactly if it was wiped |
| `Dungeons.NobodyIsLost` | VS_Projects/src/World_Server/DungeonManager.cpp:286-338 | whoever was on a destroyed instance stands on a map that is no instance |
| `ArenaRuns.ScoredKeeps` | VS_Projects/src/World_Server/Arena.cpp:179-189 | a credited kill is always scored, by at most one point |
| `ArenaPlay.KillScores` | VS_Projects/src/World_Server/Arena.cpp:164-209 | a kill in a match is a point for the killer's own team and no other, and the tenth ends the match with that team as winner |
| `ArenaPlay.RedScoresForRed` | VS_Projects/src/World_Server/Arena.cpp:190-191 | Red's first kill makes it 1:0 |
| `ArenaPlay.EntriesOfAKill` | VS_Projects/src/World_Server/Arena.cpp:168-185 | the fallen has one more death and five seconds to wait, the killer one more kill, nobody else anything |
| `ArenaPlay.OnlyPlayersScore` | VS_Projects/src/World_Server/Arena.cpp:164-179 | outside a match, or without a player as killer, nothing is scored |
| `ArenaPlay.PaysByTeam` | VS_Projects/src/World_Server/Arena.cpp:276-304 | everyone in game on the floor gets 50000 for a victory, 25000 for a draw, else 15000, and nobody else anything |
| `ArenaPlay.PhasesGoRound` | VS_Projects/src/World_Server/Arena.cpp:445-532 | twenty seconds of countdown once both teams have somebody, five minutes of play from nil all, the higher score as winner, fifteen seconds, all entries as new |
| `ArenaRuns.StepKeeps` | VS_Projects/src/World_Server/Arena.cpp:68-209 | every call keeps roster, scores, winners and times as they should be and only adds to the log |
| `ArenaRuns.ArenaSafety` | VS_Projects/src/World_Server/Arena.cpp:164-209 | over every run: no duplicate entry, scores below the target while active and never both at it, roster kills within the scores, the right winner at every end |
| `ArenaRuns.OneEndPerStart` | VS_Projects/src/World_Server/Arena.cpp:445-532 | in every run, exactly one end between one start and the next |
| `ArenaRuns.EndsFarApart` | VS_Projects/src/World_Server/Arena.cpp:253-256 | in every run, nothing starts and nobody is paid within 35 seconds of a payout |
| `ArenaRuns.PayoutsInWindow` | VS_Projects/src/World_Server/Arena.cpp:253-318 | in every run, at most T/35 + 1 payouts in any window of T seconds |
| `ArenaFloor.RosterMatchesFloor` | VS_Projects/src/World_Server/Arena.cpp:406-442 | after the two roster loops every entry is of somebody on the floor, everybody in game there has one, and standing entries are untouched |
| `ArenaFloor.JoinKeepsTeamsEven` | VS_Projects/src/World_Server/Arena.cpp:50-100 | a newcomer goes to the smaller team, so even teams stay even, and his team is his player's |
| `ArenaPlay.TieGoesToRed` | VS_Projects/src/World_Server/Arena.cpp:50-66 | a newcomer to even teams is Red and stands on map 9 |
| `ArenaPlay.FoundOnTheFloor` | VS_Projects/src/World_Server/Arena.cpp:406-429 | somebody found on the floor without an entry plays for the team he has, else for the smaller |
| `ArenaPlay.KnownOnTheFloor` | VS_Projects/src/World_Server/Arena.cpp:406-429 | somebody found there with an entry keeps it, and takes its team if he has none |
| `ArenaPlay.JoiningAgain` | VS_Projects/src/World_Server/Arena.cpp:68-121 | whoever comes back keeps kills and deaths, stands and goes to the smaller team; nothing for people loading or already there |
| `ArenaPlay.FreshStartIs` | VS_Projects/src/World_Server/Arena.cpp:227-245 | a fresh start is on one's own team, with all hit points, on the way to map 9 |
| `ArenaPlay.StandsUpHealed` | VS_Projects/src/World_Server/Arena.cpp:340-365 | whoever is put back into play has all his hit points and is at the end of the list |
| `ArenaFloor.LeaveClears` | VS_Projects/src/World_Server/Arena.cpp:123-148 | whoever leaves is off the roster, off the floor and on no team |
| `ArenaFloor.DueStandAgain` | VS_Projects/src/World_Server/Arena.cpp:507-519 | after the respawn loop exactly those down, due and on the floor stand again, though the loop rearranges the floor's list |
| `ArenaFloor.ReadyingChosen` | VS_Projects/src/World_Server/Arena.cpp:227-245 | the start loop readies exactly the people chosen from the list as it stood, and changes nobody else |
| `ArenaFloor.EveryoneIsReadiedIff` | VS_Projects/src/World_Server/Arena.cpp:227-245 | everybody in game is readied exactly when no two of them are neighbours in the list |
| `ArenaFloor.SecondOfTwoIsPassedOver` | VS_Projects/src/World_Server/Arena.cpp:227-245 | two hurt fighters on the floor: the first is healed and sent to his base, the second is left as he is |
| `ArenaManager.CArenaManager.JoinArena` | VS_Projects/src/World_Server/Arena.cpp:68-121 | the smaller team, one entry, and the way to map 9; nothing for people loading or already there |
| `ArenaManager.CArenaManager.LeaveArena` | VS_Projects/src/World_Server/Arena.cpp:123-148 | the entry goes and the player goes to the exit map |
| `ArenaManager.CArenaManager.OnPlayerKill` | VS_Projects/src/World_Server/Arena.cpp:164-209 | death, credit, score and, at the target, the end of the match; nothing without a victim |
| `ArenaManager.CArenaManager.StartMatch` | VS_Projects/src/World_Server/Arena.cpp:219-251 | the loop over the list it rearranges does what the specification of the start says |
| `ArenaManager.CArenaManager.EndMatch` | VS_Projects/src/World_Server/Arena.cpp:253-322 | intermission, and everyone in game on the floor is paid exactly once |
| `ArenaManager.CArenaManager.Update` | VS_Projects/src/World_Server/Arena.cpp:399-532 | one step of the runs, so all of their invariants hold after it |
| `Chatrooms.NextIdIs` | VS_Projects/src/Char_Server/charpackets.cpp:768-794 | the first free id in cyclic order after the last while one in 1..0xfe is free, and unused exactly when one in 1..0xff is |
| `Chatrooms.CleanedIs` | VS_Projects/src/Char_Server/charpackets.cpp:829-840 | cleaning never drops anybody online, and leaves somebody offline exactly when the first two both are |
| `Chatrooms.SecondOfTwoStays` | VS_Projects/src/Char_Server/charpackets.cpp:829-840 | two leading members who have gone: the second stays listed |
| `Chatrooms.CreateKeepsIff` | VS_Projects/src/Char_Server/charpackets.cpp:883-985 | a creation keeps everybody listed exactly when an id is free or no client is in the last room |
| `Chatrooms.FullHouseLosesARoom` | VS_Projects/src/Char_Server/charpackets.cpp:936-974 | with 255 rooms the next id is 0xff, in use; a creation overwrites that room and its client is listed nowhere |
| `Chatrooms.NobodyUnlisted` | VS_Projects/src/Char_Server/charpackets.cpp:798-1150 | over any run in which every granted creation finds an id nobody is in: no room is empty, names are distinct, and every online client in a room is on its list |
| `Chatrooms.LeaveUndoesJoin` | VS_Projects/src/Char_Server/charserver.cpp:188-239 | leaving undoes joining for a client who was in no room |
| `ChatRequests.CreationIs` | VS_Projects/src/Char_Server/charpackets.cpp:883-985 | one room with the asked name, password and places and its owner alone in it, or nothing for the four refusals |
| `ChatRequests.StrangerIsLetInIff` | VS_Projects/src/Char_Server/charpackets.cpp:987-1128 | somebody not listed is let in exactly into an existing room, with its password if it has one, with places left |
| `ChatRequests.PasswordGuards` | VS_Projects/src/Char_Server/charpackets.cpp:987-1128 | a room made with a password opens to that word and to no other |
| `ChatRequests.NoPasswordNoGuard` | VS_Projects/src/Char_Server/charpackets.cpp:987-1128 | one made without opens to any |
| `ChatRequests.LeavingTakesOne` | VS_Projects/src/Char_Server/charserver.cpp:188-239 | leaving takes one listing of that client, the room goes with the last, no other room changes |
| `ChatServer.CCharServer.GetChatroomID` | VS_Projects/src/Char_Server/charpackets.cpp:768-794 | the two loops find the next id |
| `ChatServer.CCharServer.CleanRooms` | VS_Projects/src/Char_Server/charpackets.cpp:818-851 | every room is cleaned or erased, and everybody online stays listed |
| `ChatServer.CCharServer.CreateRoom` | VS_Projects/src/Char_Server/charpackets.cpp:883-985 | one new room with its owner, or nothing; refused in a room, without name or places, or for a taken name |
| `ChatServer.CCharServer.JoinRoom` | VS_Projects/src/Char_Server/charpackets.cpp:987-1128 | joins an existing room with the right password and enough places, or changes nothing |
| `ChatServer.CCharServer.DisconnectClientFromChat` | VS_Projects/src/Char_Server/charserver.cpp:188-239 | the first listing goes, with the last listing the room, and the client is in no room |
| `BuffBot.CastRemovesOne` | VS_Projects/src/World_Server/PlayerBot.cpp:3727-3769 | the chosen skill, if it takes, removes exactly one lack |
| `BuffBot.SkillsComeInOrder` | VS_Projects/src/World_Server/PlayerBot.cpp:3727-3769 | healing under 85 parts of a hundred comes first, then the seven charms in order |
| `BuffBot.QueueDrains` | VS_Projects/src/World_Server/PlayerBot.cpp:3671-3786 | the queue is empty after exactly as many casts as there are lacks, whatever the index was |
| `BuffBot.FairRounds` | VS_Projects/src/World_Server/PlayerBot.cpp:3717-3724 | while no cast takes, as many rounds as candidates serve each once, from any index |
| `BuffBot.EveryoneIsServed` | VS_Projects/src/World_Server/PlayerBot.cpp:3671-3724 | and everybody who needs help is served within that many rounds |
| `BuffBot.CPlayerBot.ServeQueue` | VS_Projects/src/World_Server/PlayerBot.cpp:3665-3786 | serves the candidate whose turn it is with the skill he needs, at most once per throttle |
| `StatSpender.CPlayerBot.AllocateStats` | VS_Projects/src/World_Server/PlayerBot.cpp:1800-1858 | for any rolls: ends, spends exactly the price of every value passed through, never below zero, only on the job's attributes, and stops at a choice beyond its means |
| `StatSpender.PriceAddsUp` | VS_Projects/src/World_Server/PlayerBot.cpp:1829-1856 | the price of raising an attribute does not depend on the steps it is raised in |
| `StatSpender.PriceFromNothing` | VS_Projects/src/World_Server/PlayerBot.cpp:1824-1856 | from 0 to 5j an attribute costs 5 + 5j(j-1)/2 points |
| `StatSpender.RollsRaise` | VS_Projects/src/World_Server/PlayerBot.cpp:1803-1822 | six or five rolls of ten raise a job's first attribute, the rest the others |
| `StatSpender.FavouredAre` | VS_Projects/src/World_Server/PlayerBot.cpp:1803-1822 | the attributes of every job |

## Left out

- Characters.Character.CheckABuffs: what the arms for stats with their own arithmetic (critical, attack speed, maximum HP
  and MP, extra and shield damage) store is a parameter, because those stats are not kept here; their use of the slots is
  modelled.
- Dungeons.DungeonManager.HandlePartyWipe: the stats worked out anew once the statuses are gone (`RefreshBuff`'s pointers and
  `SetStats`), which may cap the points just given at lower full points, are not part of this model.
- Monsters.CMonster.DoAi: which rules of which event are visited is stated for events with fewer than 256 rules, because
  fuller ones run on into the next (`AipFiles.FullEventRunsOn`).
- Chatrooms.NobodyUnlisted: creations on a full house with somebody in the last room are excluded, because they lose that
  room's people, as `CreateKeepsIff` and `FullHouseLosesARoom` state.
- ArenaManager.CArenaManager.OnPlayerKill: a killer is somebody known to the hall, or no player at all.
- Declared packet sizes of 0x8000 and above: the signed-short read length wraps there; `Sane` keeps them outside.
- Floats in packets travel as their 32-bit pattern; what the pattern means is not part of this model.
- The INT bonus of a skill is a number the caller gives; its formula is not part of this model.
- Success rolls, clock readings, recv lengths and rand() values are parameters, so every theorem holds for all of them.
- What a write past the declared slots does to the fields it lands in: behind the table the model only keeps what the next
  search reads there.
- A move-speed cast into a full band, which writes slot 0xff; status 0, which `InstantBuff` handles.
- Buff expiry over time and `RefreshBuff` outside a wipe, summons, and the bflag details of instant effects.
- Monster AI conditions and actions themselves: they are arbitrary functions of monster, data and AI number. Rule keys are
  not wrapped to 32 bits. Condition 32 and action 38 pass the guards although the tables of functions end at 31 and 37
  (`World_Server/aip/Aip.cpp:395-465`); the model runs them like any other.
- `CMap` and `CPlayer` objects are records reached by pointer or id, kept in maps that the manager's methods reassign, so
  aliasing between them is not captured; null entries in player lists are not either.
- Dungeon locks protect whole critical sections: the maps guarded by the dungeon mutex are only read and written inside one,
  and only the scan of the slots, which reads a table another mutex guards, is taken apart slot by slot.
- Monster spawns, environment fields, broadcast texts, and the operators' commands that wipe a party or start and stop a
  match.
- Exit maps that are not loaded: the five exits are taken to have a player list.
- Arena: rewards are not wrapped to 64 bits; other maps' player lists are not kept; whatever else moves people or changes
  what is known of them is one step that may do anything consistent. `GetClientByID` is taken to find exactly the people on
  map 9's list, and `pvp_id` to be -1, 0, 1 or 2 there.
- Chatroom capacity and one room per player, which the join request does not keep; cleaning while iterating is taken over a
  snapshot of the ids; `is_active`, which is only ever true.
- Parties, clans, crafting, movement, chatter, SQL and the sockets themselves.
- `AllocateStats` divides attributes as floats, which is exact below 2^24; attribute fields are not wrapped to their width.
