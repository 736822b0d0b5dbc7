# q2admind: a verified model of the session, player table, rules and invites

q2admind is a backend that holds one long-lived TCP session with each of many Quake 2
game servers ("frontends"). This project models the parts of it that keep state from one
message to the next, and proves what they promise over whole runs:

- **Session** (`Octets`, `Crypto`, `Message`, `Outgoing`, `Session`, `LockStep`). Messages
  are padded and encrypted with AES in CBC mode; each packet sent replaces the IV by the
  first block of its own ciphertext, and every 64th ping sends a fresh key and IV inside the
  stream. The main result is lock-step: for every interleaving of queueing, flushing, pinging,
  rotating and in-order delivery, the packets in flight lead the peer to exactly the server's
  key and IV, and nothing queued is lost, repeated or reordered. It holds for every connection
  of a frontend, whatever the connections before left in its struct, except after one that
  ended on input the backend could not decrypt.
- **Messages from a frontend** (`Incoming`, `Effects`, `Dispatch`). Records follow each other
  without lengths. Framing is proved to be a homomorphism with a converse, and the imperative
  `ParseMessage` with its handlers is proved against it and against what each record does to
  the players and their invites; which messages stop the backend is stated exactly.
- **Player table and scoreboard** (`Strings`, `Userinfo`, `Ratios`, `Scoreboard`, `TableLaws`). Joins,
  leaves, updates and obituaries over an array of slots: conservation of scores, the cached
  ratio, agreement of the three ways to find a slot, and exactly when an event panics, over
  runs that include new connections. `Effects` carries these over to whatever bytes a
  frontend sends.
- **Invites** (`Invites`, `Lifetime`). A token bucket and a limit per player, with rate bounds
  over whole timed runs, and the proof that connections, messages and maintenance make such
  runs.
- **Rules** (`Durations`, `Rules`, `RuleMeaning`, `RuleSets`, `RuleActions`, `ActionLaws`,
  `Delivery`).
  Matching by counting needs and haves, against what rules are documented to mean; the
  severity sort, the connect path and the maintenance path, the sequence
  of records that acting on matches emits, and its way through the session to the game server.

Code that changes state is a class whose methods are proved against functions of the old
state; the laws are lemmas about those functions and their runs. Three modules each have a
class `Frontend` holding the fields of the program's Frontend that the module needs.

## What is assumed

- The message buffer is that of the libq2 library, which is not part of this model: strings
  are taken to end in a zero byte. A message that ends inside a record ends in the outcome
  `Truncated`; what the library reads then is left open.
- The game server's code is not in the repository. Its end is assumed to mirror
  `SendMessages`: after each packet its IV is the first 16 bytes of the ciphertext, and a Key
  record then installs the key and IV it carries.
- AES is any family of invertible maps on 16-byte blocks. CBC follows section 6.2 of NIST
  SP 800-38A and the padding section 6.3 of RFC 5652. Exclusive or is defined bit by bit.
- `strconv.ParseFloat` is a parameter; of it is assumed only that text with a point in it
  which it accepts does not end in a unit letter.
- A frontend's struct lives on from one connection to the next (`backend/backend.go:176-186`):
  a new handshake replaces the players, the invite bucket and, if encrypted, key and IV, and
  leaves the player count, the ping count and the previous IV. Handshakes are taken to succeed.
- Random keys and IVs, clocks, MD5 digests, the order in which a Go map is iterated, and the
  results of regular-expression, CIDR, date and DNS calls are parameters, hence arbitrary.
- Every captured obituary name is non-empty, as each pattern captures with `(.+)`; the clock is
  past the beginning of Unix time when a player joins.
- Steps are atomic, one write is one packet, and the clock is read once for each message and
  once for each pass over a rule set. Database inserts succeed.
- The order in which the units of a duration are tried is one for each pass over a rule set.
  The program draws it anew for each check; for play times that every order reads alike that
  makes no difference (`RuleMeaning.SteadyVerdict`), and where the two checks of maintenance
  are told apart each has its own order (`RuleSets.OneRuleOnBothPaths`).
- The times of an exception are taken, like its other criteria, to be enough by themselves;
  when an interval (`every`) comes round is documented nowhere and left open.

## Where the code and its documentation differ

The model follows the code.

- The receive loop means to retry with the previous IV, but hands the retry the emptied input
  of the first attempt, so the retry never yields a message (`Session.RetryNeverSucceeds`); the
  empty message ends the session or the backend (`Session.EmptyMessageEnds`). A
  wrong IV is not noticed by size from two blocks on (`Crypto.WrongIvLocality`).
- A connection that ends on input that cannot be decrypted leaves the frontend trusted, so the
  next encrypted handshake is itself sent encrypted, under the key it is to deliver
  (`LockStep.NextConnection`, `LockStep.LateHandshakeOutOfStep`).
- A new connection drops the players of the last without writing their rows or lowering the
  player count (`Scoreboard.ReconnectKeeps`, `Scoreboard.CountExceedsByDropped`).
- `SymmetricDecrypt` refuses every key whose length differs from the IV's, so the longer AES
  keys `SymmetricEncrypt` accepts cannot be decrypted with (`Crypto.RoundTrip`).
- `CheckRule` is documented to need as many haves as needs. The loop over name patterns has no
  break, so surplus name matches pay for failed criteria (`RuleMeaning.ConjunctionExactly`,
  `RuleMeaning.TwoNamesForOneVpn`).
- Rules are documented to ask for a client version and for an interval (`proto/rule.proto:70`,
  `proto/rule.proto:99`), exceptions for a client version and for times (`proto/rule.proto:85`,
  `proto/rule.proto:88`). Nothing reads these. The exact conditions under which a rule and an
  exception are judged as documented are `RuleMeaning.ConjunctionExactly`,
  `RuleMeaning.DocumentedExactly` and `RuleMeaning.ExceptionExactly`, with the failing inputs
  `RuleMeaning.ClientIgnored`, `RuleMeaning.ClientAloneIgnored` and
  `RuleMeaning.ExceptionForClientMisses`.
- Mute and stifle marks are documented for rules that matched, but follow a flag that one
  satisfied criterion sets. A mute rule that does not apply then suppresses stifles on connect
  (`RuleActions.StifledOnConnectExactly`, `RuleActions.SilencedStifle`).
- Times of day are compared hour with hour and minute with minute, and their seconds not at
  all (`RuleMeaning.TimeOnlyExactly`, `RuleMeaning.TimeOnlyFails`).
- Exception names are documented as case-insensitive (`proto/rule.proto:84`) and matched as
  written (`RuleMeaning.ExceptionExactly`, `RuleMeaning.ExceptionForBobMisses`).
- Maintenance lists a rule twice that has both a play time and an after time, and does not
  look at rules with neither (`RuleSets.PathsAgreeExactly`,
  `RuleSets.OneRuleOnBothPaths`). It never looks at the rules of the whole backend, which are
  checked on connect (`RuleSets.RealPathsAgreeExactly`).
- The unit loop of `durationToSeconds` strips letters in map order: "5ms" is five minutes or
  an error (`Durations.OrderIndependentIff`, `Durations.OrderMatters`).
- The bucket is documented to gain a token every five minutes; the interval set is 30 seconds,
  and a token needs strictly more than that (`Invites.AdditionsApart`,
  `Invites.TokensHalfAMinuteApart`).
- `ParsePlayer` lets a client number equal to the number of slots through and then panics;
  `UserinfoMap` panics on a key without a value; `ParsePrint` panics on an empty text; `Invite`
  dereferences an unknown player (`Scoreboard.PanicsExactly`, `Userinfo.PanicsOnOddTokens`,
  `Effects.RecordStopsExactly`, `Invites.InviteCrashesExactly`).
- A player out of invites is told to wait a number of seconds after which an invite is still
  refused; one second more is needed (`Invites.WaitExactly`).
- A stifle of no positive length is sent as a mute for good (`RuleActions.StifleForGoodExactly`).
- A frag lowers the ratio of a player whose frags are at -2 or below
  (`Ratios.FragLowersExactly`), and a suicide can raise a negative one
  (`Ratios.SuicideRaisesExactly`).

## Model

| member | source | states |
|---|---|---|
| Crypto.PKCS5Padding | crypto/crypto.go:177-181 | the padded message is a whole number of blocks, begins with the message, is longer than it by at most one block, and every byte added is the number of bytes added |
| Crypto.UnpadInvertsPad | crypto/crypto.go:273-282 | the unpadding of SymmetricDecrypt gives back every padded message |
| Crypto.CbcRoundTrip | crypto/crypto.go:269-271 | CBC decryption inverts CBC encryption for every key, IV and whole number of blocks |
| Crypto.CbcEquations | crypto/crypto.go:293-295 | each ciphertext block is its plaintext block, XORed with the ciphertext block before it or the IV, encrypted |
| Crypto.CbcWrongIv | crypto/crypto.go:270-271 | under another IV only the first block decrypts differently, by the XOR of both IVs |
| Crypto.CryptBlocksEncrypt | crypto/crypto.go:293-295 | the buffer filled block by block holds the CBC ciphertext |
| Crypto.CryptBlocksDecrypt | crypto/crypto.go:269-271 | the buffer filled block by block holds the CBC plaintext |
| Crypto.SymmetricEncrypt | crypto/crypto.go:286-298 | the result on all inputs, panics on key and IV sizes included |
| Crypto.SymmetricDecrypt | crypto/crypto.go:254-283 | the result on all inputs: panics, the empty ciphertext, an oversized padding count |
| Crypto.SizesExactly | crypto/crypto.go:254-298 | exactly which sizes of key, IV and message the two functions stop on |
| Crypto.AnyPadding | crypto/crypto.go:273-282 | of any whole blocks, well padded or not, as many bytes are cut off as the last one says, and all if these are more than there are |
| Crypto.RoundTrip | crypto/crypto.go:254-298 | whenever encryption succeeds, decryption gives the plaintext back exactly for 16-byte keys and panics for the longer ones |
| Crypto.CiphertextLength | crypto/crypto.go:177-181 | the ciphertext length is the least multiple of 16 above the plaintext length |
| Crypto.WrongIvLocality | crypto/crypto.go:269-282 | from two blocks on, another IV yields a message of the same length, different in the first block only and by the XOR of the IVs |
| Crypto.WrongIvOneBlock | crypto/crypto.go:269-282 | for a single block the exact length read under another IV, from the XOR of the last IV bytes, and the exact bytes |
| Outgoing.ReadEncoded | backend/command.go:138-152 | the fields of every record written, the Key record included, are read back in order and the rest of the stream is left untouched |
| Outgoing.WireFormat | backend/command.go:36-152 | every record byte by byte: opcode, fields in their places, text and terminator |
| Outgoing.DecodeEncoded | backend/backend.go:627-640 | reading the bytes of any list of queued records gives the list back |
| Session.Frontend.constructor | backend/backend.go:272-291 | a frontend as loaded: neither trusted nor encrypted, nothing to send, no key and no IV |
| Session.HelloAckRead | backend/backend.go:532-534 | the peer finds the blob behind an opcode and its length, low byte first |
| Session.Frontend.Connect | backend/backend.go:516-563 | what the handshake leaves of the struct of the last connection, and the packets it writes |
| Session.Frontend.Disconnect | backend/backend.go:600-621 | only the end of input clears the trusted flag |
| Session.Frontend.SendMessages | backend/backend.go:627-640 | the packet written and every field afterwards; the IV becomes the first ciphertext block, the old one is kept |
| Session.Frontend.RotateKeys | backend/backend.go:257-269 | the Key record leaves under the old key, behind all that was queued, then the new key and IV are in force |
| Session.Frontend.HandlePing | backend/parse.go:159-173 | a Pong is queued and every 64th ping rotates the keys |
| Session.Frontend.Read | backend/backend.go:595-610 | which input is accepted, which ends the session and which panics, with the second decryption on the emptied input |
| Session.RetryNeverSucceeds | backend/backend.go:597-608 | a message is accepted exactly when the first decryption is not empty, and exactly when the loop panics |
| Session.EmptyMessageEnds | backend/backend.go:597-608 | the encrypted empty message disconnects, or panics while there is no previous IV |
| Session.HandshakeInTheClear | backend/backend.go:516-563 | the handshake after a connection is sent as plain bytes exactly unless that one ended undecryptable and the new one is encrypted |
| Session.HandshakeSetsUp | backend/backend.go:516-563 | a handshake in the clear leaves exactly the key and IV handed over, and the previous IV and ping count as they were |
| Session.AcceptedAsSent | backend/backend.go:595-610 | a message sent under another IV is accepted as sent exactly when the IVs agree on the bytes that matter: in full from 16 bytes on |
| LockStep.FlushedIsRead | backend/backend.go:627-640 | a peer with the server's key and IV reads from a flushed packet exactly the records queued and takes over the new IV |
| LockStep.StepKeepsStep | backend/backend.go:257-269 | every step keeps the protocol invariant: records accounted for, and the packets in flight lead the peer to the server's key and IV |
| LockStep.RunKeepsStep | backend/backend.go:582-614 | the invariant over every sequence of steps |
| LockStep.LockStepHolds | backend/backend.go:627-640 | in every run of a connection with a clear handshake, whatever went before, replaying the packets in flight yields the server's key and IV; what was read and will be read is what was sent; sent and buffered records are all records queued |
| LockStep.KeyEndsItsPacket | backend/backend.go:257-269 | in every run a Key record is the last of its packet, and there is one for each multiple of 64 the ping count, running on from earlier connections, passes in an encrypted session |
| LockStep.DrainedInStep | backend/backend.go:627-640 | once all packets are delivered the peer has read all that was queued and not buffered, and shares key and IV |
| LockStep.DrainedOverRuns | backend/backend.go:627-640 | the same after every run from the handshake |
| LockStep.IvWindow | backend/backend.go:632-637 | with at most one packet in flight, carrying no key, the peer has the server's key and the current IV, or the previous one if a packet is in flight |
| LockStep.WindowOnReceive | backend/backend.go:595-610 | with nothing in flight every message of the peer is accepted as sent; with one packet in flight exactly when the two IVs can stand in for each other |
| LockStep.WindowOverRuns | backend/backend.go:595-610 | both statements after every run from the handshake |
| LockStep.ClearSessions | backend/backend.go:595-612 | in every run of a session that is not encrypted, whatever is in flight, each message of the peer is sent as it is and accepted as sent |
| LockStep.NextConnection | backend/backend.go:597-621 | after a connection in step the next begins in step unless the last ended undecryptable and the next is encrypted; then its handshake is not in the clear, and the peer has no key to read it with, and even with key and IV would be in step only if the IV came back |
| LockStep.LateHandshakeOutOfStep | backend/backend.go:597-621 | a cipher under which such a frontend is out of step after every encrypted handshake |
| Incoming.ReadRecord | backend/parse.go:28-64 | whatever is read is well formed, and the data are its encoding followed by what is left |
| Incoming.TextFormat | backend/parse.go:179-461 | the records that end in a string, byte by byte |
| Incoming.WireFormat | backend/parse.go:239-442 | the other records, byte by byte |
| Incoming.ListFormat | backend/parse.go:364-373 | a list is its length in a byte and its joins, each as behind a connect |
| Incoming.UnknownFormat | backend/parse.go:37-62 | exactly which opcodes stand for no record, and that each is one byte |
| Incoming.ReadEncoded | backend/parse.go:179-185 | every handler reads back exactly the fields written for it and leaves the rest |
| Incoming.ParseEncoded | backend/parse.go:28-64 | framing is a homomorphism: well-formed records in front come out one by one and the rest parses as if alone |
| Incoming.ParseIsEncoded | backend/parse.go:28-64 | conversely every message is the encoding of the records it parses to, followed by the bytes of a record cut short |
| Dispatch.Frontend.constructor | backend/backend.go:272-291 | a frontend as loaded has no slots, no players and no map, and the invite tokens and interval of its row |
| Dispatch.Frontend.Connect | backend/backend.go:565-570 | a new connection gets an all-vacant table of the size greeted with and a full bucket, and keeps the player count; a reachable table stays reachable |
| Dispatch.Frontend.Maintain | backend/maintenance.go:25 | a token is added to the bucket if it may be, and nothing else changes |
| Dispatch.Frontend.FindPlayer | frontend/player.go:51-61 | the first slot in use with the given number, if the number is valid |
| Dispatch.Frontend.FindPlayerByName | frontend/player.go:163-170 | the first slot with the given name |
| Dispatch.Frontend.CalculateKDR | frontend/frontend.go:509-528 | the ratio of the player found, zero when there is none |
| Dispatch.Frontend.WritePlayer | frontend/frontend.go:534-560 | one row with the player's numbers for a slot whose connect time is set, none otherwise |
| Dispatch.Frontend.RemovePlayer | frontend/player.go:117-130 | row written, slot cleared and count lowered, or nothing at all |
| Dispatch.Frontend.ParsePlayer | backend/parse.go:377-427 | the fields read, the join they make, the slot overwritten and the count raised; the rejected and the panicking client numbers |
| Dispatch.Frontend.ParseConnect | backend/parse.go:239-246 | one join read and applied |
| Dispatch.Frontend.ParsePlayerlist | backend/parse.go:364-373 | the joins read and applied in order up to the first that panics |
| Dispatch.Frontend.ParseDisconnect | backend/parse.go:277-299 | one byte read in every case; a known player is removed |
| Dispatch.Frontend.ParsePlayerUpdate | backend/parse.go:445-478 | both fields read first; a known player with a changed digest is refreshed |
| Dispatch.Frontend.CalculateDeath | frontend/meansofdeath.go:226-259 | the first two-player pattern that matches, else the first one-player pattern, and the slots of the names |
| Dispatch.Frontend.ParseObituary | backend/parse.go:318-359 | the scores and ratios written through the client numbers of the players found |
| Dispatch.Frontend.ParsePrint | backend/parse.go:179-217 | both fields read; medium-level prints score as obituaries without their last character; empty text panics |
| Dispatch.Frontend.ParseCommand | backend/parse.go:430-442 | all fields of a teleport or invite are read, with the values sent, and only the command byte of any other; an invite acts on bucket and player or stops the backend |
| Dispatch.Frontend.Teleport | backend/teleport.go:76-77 | player and target are read, with the values sent |
| Dispatch.Frontend.Invite | backend/invite.go:17-65 | client and text are read, with the values sent, and then the invite takes its course |
| Dispatch.Frontend.AskInvite | backend/invite.go:20-65 | the reply, and bucket and player afterwards, on every path; the crash on an unknown player |
| Dispatch.Frontend.ParseMap | backend/parse.go:303-308 | exactly the map name is read and becomes the current map, the current one the previous |
| Dispatch.Frontend.Pong | backend/parse.go:159-166 | the ping is counted |
| Dispatch.Frontend.HandleRecord | backend/parse.go:34-62 | one pass of the loop consumes exactly one record, whose handler reads exactly its fields and has its effect |
| Dispatch.Frontend.ParseMessage | backend/parse.go:28-64 | ends normally exactly when all records are whole and none panics; then every byte is consumed, the handlers have read exactly the fields of their own records, in order, and table, invites, maps and pings are what the records make of them |
| Dispatch.Frontend.Receive | backend/backend.go:612-613 | the same for each buffer received, whatever the last one left; and a reachable table stays reachable |
| Effects.RecordIsRun | backend/parse.go:28-64 | a record's effect on the table, panics included, is that of the joins, leaves, updates, obituaries and invites sent it stands for; only a print without text and an invite that crashes panic by themselves |
| Effects.SeenExactly | backend/invite.go:20-24 | in a reachable table the invite command knows exactly the players in use |
| Effects.RecordStopsExactly | backend/parse.go:28-64 | from a reachable table exactly which records panic, invites of vacant slots included |
| Effects.MessageStopsExactly | backend/parse.go:28-64 | a message panics exactly when the frontend, as the records before left it, does not survive one of its records |
| Effects.RecordKeepsReachable | backend/parse.go:28-64 | every record a handler survives leads from a reachable table to a reachable table |
| Effects.MessageKeepsReachable | backend/parse.go:28-64 | the same for every list of records, so all results on reachable tables hold after every message |
| Effects.SplitMessage | backend/parse.go:28-64 | a list of records has one effect, whether sent in one message or in two |
| Effects.WholeMessage | backend/parse.go:28-64 | a message of well-formed records parses to exactly these records with nothing left |
| Lifetime.RecordIsInvites | backend/parse.go:28-64 | a record changes players and bucket, as invites see them, by the joins, leaves and invites it holds |
| Lifetime.LifeIsInvites | backend/backend.go:565-614 | over any connections, messages and maintenance a frontend's invites are a run of the throttling protocol, and its table stays reachable |
| Lifetime.UsesLimited | backend/invite.go:61-65 | whatever a frontend sends, the use count of its bucket grows in T seconds of one connection by at most max + 1 + T / 31 |
| Scoreboard.FindIsSlot | frontend/player.go:51-61 | in a sound table FindPlayer finds slot i exactly for the number i of a slot in use |
| Scoreboard.NameIsSlot | frontend/player.go:163-170 | a non-empty name leads to a slot in use with its own number, and to none only if no slot has the name |
| Scoreboard.JoinKeeps | backend/parse.go:386-420 | a join keeps the table sound, the scores balanced and the count in step |
| Scoreboard.ReconnectKeeps | backend/backend.go:565 | a new connection moves the scores aboard to the entries lost and leaves the count too high by their number |
| Scoreboard.RemovedKeeps | frontend/player.go:117-130 | removal moves a score from its slot to the rows and keeps the balance |
| Scoreboard.LeaveKeeps | backend/parse.go:277-299 | a leave keeps the invariant for every client number |
| Scoreboard.UpdateKeeps | backend/parse.go:445-478 | an update keeps the invariant |
| Scoreboard.SoloIsScoring | backend/parse.go:331-342 | one slot gains a death and a suicide, loses a frag, and has its ratio renewed; nothing else changes |
| Scoreboard.DuoIsScoring | backend/parse.go:343-356 | the victim gains a death, the murderer a frag, both ratios are renewed; one player on both sides gains both |
| Scoreboard.ObituaryScores | backend/parse.go:318-359 | in a consistent table an obituary never panics and scores exactly the slots its names lead to |
| Scoreboard.ObituaryKeeps | backend/parse.go:318-359 | an obituary keeps the invariant, suicides and unknown attackers included |
| Scoreboard.RunKeeps | backend/parse.go:28-64 | the invariant over every run of events |
| Scoreboard.ScoresConserved | backend/parse.go:318-359 | in every reachable table deaths equal frags plus twice the suicides, over slots, rows written and entries overwritten or dropped, over any number of connections |
| Scoreboard.RatiosCurrent | frontend/frontend.go:509-528 | in every reachable table each stored ratio is the one its numbers give; zero only for a clean slate, at least 1 in size otherwise, negative exactly when deaths exceed frags |
| Scoreboard.SlotsAgree | frontend/player.go:51-61 | in every reachable table slot numbers, FindPlayer, name lookup and slots in use agree, and the count exceeds the occupied slots by the players overwritten or dropped |
| Scoreboard.ObituaryMovesRatios | backend/parse.go:331-356 | being killed never raises a ratio; exactly when a kill lowers the killer's and a suicide raises the victim's |
| Scoreboard.CountExceedsByDropped | backend/parse.go:419-420 | from an empty table the count exceeds the occupied slots by the joins onto a slot in use and the players aboard at new connections |
| Scoreboard.PanicsExactly | backend/parse.go:386-419 | from a reachable table exactly which events panic |
| TableLaws.KillScores | backend/parse.go:343-356 | when the first two-player pattern to read the text reads a and b, the first player called a gains a death, the first called b a frag, with both ratios renewed, and nothing else changes |
| TableLaws.OwnKillScores | backend/parse.go:343-356 | a player named on both sides gains both |
| TableLaws.LoneDeathScores | backend/parse.go:331-342 | with an unknown killer, or a one-player pattern when no two-player pattern reads the text, the victim gains a death and a suicide and loses a frag |
| TableLaws.NothingScores | frontend/meansofdeath.go:226-259 | an unknown victim, an empty text or one that no pattern reads has no effect |
| TableLaws.PrintScores | backend/parse.go:183-214 | a print of medium level is an obituary without its last character, and prints of other levels leave the players alone |
| TableLaws.JoinSeats | backend/parse.go:386-420 | a connect fills the slot of its number, field by field from what was sent and with a clean slate; whoever was there is lost |
| TableLaws.FarJoinIgnored | backend/parse.go:386-389 | a client number past the table changes nothing |
| TableLaws.JoinNames | backend/parse.go:391-405 | with userinfo written as pairs the player is called what the last pair of key name says |
| TableLaws.ListIsConnects | backend/parse.go:364-373 | a list of players has the effect of so many connects |
| TableLaws.LeaveWrites | frontend/player.go:117-130 | who leaves gets a row of exactly the numbers in the slot, which is then vacant, and the count goes down |
| TableLaws.StrangerLeaves | backend/parse.go:289-293 | a leave of nobody changes nothing |
| TableLaws.UpdateRenews | backend/parse.go:453-472 | a changed userinfo renews map, name, cookie and digest of its player and nothing else |
| TableLaws.IdleUpdate | backend/parse.go:454-465 | an update with the same digest, or of nobody, changes nothing |
| TableLaws.OthersLeaveAlone | backend/parse.go:28-64 | pings, map changes, teleports and unknown bytes leave players and invites alone |
| TableLaws.InviteBooks | backend/invite.go:20-65 | exactly when an invite is sent, and then the token and the booking on its player, field by field |
| TableLaws.PingsCounted | backend/parse.go:159-173 | every ping is counted |
| TableLaws.MapsKept | backend/parse.go:303-308 | the current map is the last one sent, the previous the one current before it |
| Ratios.BoundedExactly | frontend/frontend.go:509-528 | the bounds on the ratio hold exactly when frags plus deaths are not negative |
| Ratios.KdrCases | frontend/frontend.go:509-528 | the ratio in closed form for any frags and deaths, the swap and the divisions by nothing included |
| Ratios.DeathsLower | frontend/frontend.go:503-508 | another death never raises the ratio |
| Ratios.FragLowersExactly | frontend/frontend.go:519-527 | another frag lowers the ratio exactly when frags are at -2 or below |
| Ratios.SuicideRaisesExactly | frontend/frontend.go:519-527 | a suicide raises the ratio exactly when frags are negative and fewer in size than the deaths |
| Userinfo.UserinfoMap | frontend/player.go:137-157 | the loop yields the map built pair by pair, with the address split, or panics on an unpaired token |
| Userinfo.RoundTrip | frontend/player.go:137-157 | parsing the printed form of any backslash-free pairs gives the map in which the last pair of a key wins, up to the address split |
| Userinfo.LastWinsHolds | frontend/player.go:145-147 | that map has exactly the keys printed, each with its last value |
| Userinfo.AddressSplit | frontend/player.go:149-155 | only ip and port change, and an ip is cut at its first colon, the part behind a second being lost |
| Userinfo.PanicsOnOddTokens | frontend/player.go:143-147 | a panic exactly when the text behind the first character has an even number of backslashes |
| Strings.SplitJoin | frontend/player.go:143 | splitting undoes joining when no part holds the separator |
| Durations.DurationToSeconds | backend/rules.go:355-427 | the result of the unit loop and of the decimal, clock and integer branches, for every map order |
| Durations.StripsOne | backend/rules.go:371-376 | unless the text ends in two different units, every order strips the one unit that ends it |
| Durations.CutsDiffer | backend/rules.go:371-376 | on two different units at the end, what each order strips |
| Durations.StripIndependentIff | backend/rules.go:371-376 | the loop alone ends the same under all map orders exactly when the text does not end in two different units |
| Durations.OrderIndependentIff | backend/rules.go:355-427 | the result is the same under all map orders exactly when the trimmed text is not a number with two or more different units behind it, and is then that of taking off at most one |
| Durations.CountOfUnits | backend/rules.go:371-426 | a count, bare or with one unit letter, is the count times the unit under every order |
| Durations.OrderMatters | backend/rules.go:371-426 | a count with two different unit letters is a value under one order and an error under another |
| Durations.ClockRoundTrip | backend/rules.go:387-420 | every number of seconds whose hours fit 32 bits, printed as h:mm:ss, parses to itself |
| Durations.MinutesRoundTrip | backend/rules.go:389-402 | the same with m:ss, whatever unit letter is behind it |
| Durations.UnitTable | backend/rules.go:359-367 | each of the seven units in seconds, under every map order |
| Durations.BlanksIgnored | backend/rules.go:369 | blanks around a count do not matter |
| Durations.SignedCounts | backend/rules.go:422-426 | signs are read and what does not fit 32 bits is refused |
| Durations.DecimalValue | backend/rules.go:378-384 | a decimal is its value times the unit with the part behind the point dropped |
| Invites.InviteBucket.constructor | backend/backend.go:566-570 | the bucket starts full, with three tokens and an interval of 30 seconds |
| Invites.InviteBucket.InviteBucketAdd | frontend/frontend.go:99-109 | a token is added and its time kept exactly when below the maximum and long enough after the last |
| Invites.BucketConserved | frontend/frontend.go:99-109 | in every run tokens stay between 0 and the maximum, tokens plus uses less additions is constant, and uses count the accepted invites; per connection |
| Invites.AdditionsApart | frontend/frontend.go:104-107 | in every run of one connection additions are more than the interval apart |
| Invites.TokensHalfAMinuteApart | frontend/frontend.go:104-107 | a run with additions 31 seconds apart |
| Invites.BucketLimit | backend/invite.go:29-65 | after any history, a span of T seconds accepts at most max + 1 + T / 31 invites, and as many again for each new connection in it |
| Invites.BurstReached | backend/invite.go:29-65 | for every span some run of one connection within it accepts exactly that many |
| Invites.KnownIsSeated | backend/invite.go:20-24 | after any run a slot is known exactly when the last event about it is a join into a table that has it |
| Invites.InviteCrashesExactly | backend/invite.go:20-33 | after any run an invite crashes exactly when allowed, with a token left, and from a slot nobody is in |
| Invites.LeastTimeCycles | backend/invite.go:35-52 | the gaps cycle through more than 600, 30 and 30 seconds, so three invites cost at least 661 |
| Invites.AcceptsExactly | backend/invite.go:25-52 | exactly when an invite is sent and which refusal comes first |
| Invites.WaitExactly | backend/invite.go:38-51 | who is told to wait gets an invite through after exactly that time, or one second more when out of invites |
| Invites.InvitesCounted | backend/invite.go:61-65 | what an invite that is sent takes and counts, field by field |
| Invites.PlayerLimitReached | backend/invite.go:35-63 | the limit is attained: for every n some run of one tenancy sends n invites in exactly the least time |
| Invites.PlayerLimit | backend/invite.go:35-63 | after any history, any n accepted invites of one slot tenancy span at least 661 seconds for every three after the first and 30 for each one over |
| Rules.RuleExceptionMatch | backend/rules.go:290-349 | an exception matches exactly when unexpired and any one of its criteria holds |
| Rules.FindAddress | backend/rules.go:75-87 | found exactly when some listed network that parses contains the player's address |
| Rules.CountNames | backend/rules.go:100-113 | the number of name patterns that match, all of them counted |
| Rules.CountCriteria | backend/rules.go:75-138 | needs, haves and the match flag before the timespec |
| Rules.CountTimes | backend/rules.go:139-189 | needs and haves of the timespec, or that it cannot be read |
| Rules.CheckRule | backend/rules.go:50-216 | the verdict and the marks left on the player, for every rule and player |
| Rules.CountersDecide | backend/rules.go:200-201 | the counters decide as the criteria do: match and need up to have is need above zero and need up to have, and is that unmet criteria do not exceed surplus name matches |
| RuleMeaning.ConjunctionExactly | backend/rules.go:50-216 | the verdict is the documented conjunction exactly unless surplus name matches pay for a failed criterion, a criterion never read fails while the others hold, or such criteria are all a rule has and they hold |
| RuleMeaning.DocumentedExactly | backend/rules.go:50-216 | the same with times of day as meant: exactly when a rule applies that should not, and exactly when one does not that should |
| RuleMeaning.NeedHaveIsConjunction | backend/rules.go:50-216 | with at most one matching name pattern a rule applies exactly when live, readable, with some criterion that is read, all of those holding and no exception |
| RuleMeaning.RuleInFull | backend/rules.go:50-216 | with at most one matching name pattern, exactly when a rule applies, in terms of the answers of the library calls alone |
| RuleMeaning.CountingInFull | backend/rules.go:50-216 | for any number of matching names, a live rule applies exactly when no more criteria fail, pair by pair, than name patterns match beyond the first |
| RuleMeaning.NameHitsCount | backend/rules.go:100-113 | the name matches counted are as many as the indices of matching patterns |
| RuleMeaning.PairsCount | backend/rules.go:115-128 | the userinfo pairs counted are those not missing |
| RuleMeaning.ExceptionMeans | backend/rules.go:290-349 | an exception matches exactly when unexpired and one of its criteria holds, in terms of the library's answers |
| RuleMeaning.AnyExceptionStops | backend/rules.go:195-201 | any one matching exception keeps a rule from applying, surplus or not |
| RuleMeaning.OneExceptionMore | backend/rules.go:195-201 | an exception more takes away exactly the cases in which it matches |
| RuleMeaning.DeadRule | backend/rules.go:59-66 | a rule that is disabled, expired or unreadable never applies and leaves no mark |
| RuleMeaning.LiveRuleMarks | backend/rules.go:203-213 | exactly which marks any other rule leaves: those of its kind, if one of its criteria holds |
| RuleMeaning.ClientIgnored | backend/rules.go:50-216 | a rule that applies to players of the wrong client version |
| RuleMeaning.ClientAloneIgnored | backend/rules.go:50-216 | a rule with a client version only, that does not apply to players of that version |
| RuleMeaning.TwoNamesForOneVpn | backend/rules.go:100-113 | a rule that applies although one of its criteria fails |
| RuleMeaning.TimeOnlyExactly | backend/rules.go:147-172 | a time of day is refused wrongly exactly when the minutes contradict the hours, and accepted wrongly exactly when the seconds decide |
| RuleMeaning.TimeOnlyFails | backend/rules.go:147-172 | clock readings refused wrongly and accepted wrongly, before and after |
| RuleMeaning.ExceptionExactly | backend/rules.go:290-349 | an exception matches as documented exactly when expired, or another criterion that is read holds, or its names as written hit just if they do in any case or a criterion holds that is never read |
| RuleMeaning.ExceptionForBobMisses | backend/rules.go:325-335 | a player banned by name whom an exception for the same name, documented to match, does not help |
| RuleMeaning.ExceptionForClientMisses | backend/rules.go:290-349 | an exception for a client version that does not match a player of that version |
| RuleMeaning.SteadyVerdict | backend/rules.go:181-194 | the verdict on a rule whose play time every map order reads alike is the same under all of them |
| RuleMeaning.ShakyVerdict | backend/rules.go:181-194 | a play time with which the verdict depends on the map order |
| RuleSets.SortRules | backend/rules.go:246-264 | the four types one after another, each in its order |
| RuleSets.SortStable | backend/rules.go:246-264 | sorting keeps the order within each type |
| RuleSets.SortOrders | backend/rules.go:236-242 | the result is in severity order and holds listed types only |
| RuleSets.SortedByKind | backend/rules.go:246-264 | bans, then mutes, then stifles, then messages, each kind as selected from the list |
| RuleSets.SortPermutes | backend/rules.go:246-264 | every listed rule occurs as often as before, and no other rule occurs |
| RuleSets.SortUnique | backend/rules.go:246-264 | any stable arrangement in severity order is the sorted one |
| RuleSets.SortIdempotent | backend/rules.go:246-264 | sorting a sorted list changes nothing |
| RuleSets.SortKeepCommute | backend/rules.go:246-264 | selecting commutes with sorting, for every test |
| RuleSets.CheckRules | backend/rules.go:24-35 | the applying rules in severity order; marks set by earlier checks change no later verdict |
| RuleSets.MutedAfter | backend/rules.go:203-213 | a player is muted after the checks exactly if already so or touched by a mute rule |
| RuleSets.CheckTimedRules | backend/maintenance.go:31-47 | the list maintenance acts on for one player, and the marks left on the copy |
| RuleSets.PathsAgreeExactly | backend/maintenance.go:31-47 | maintenance and the connect path give the same list exactly when every applying rule of a listed type carries exactly one of play time and after |
| RuleSets.CheckTimes | backend/maintenance.go:33-45 | the two checks of one rule, each in a context of its own, and the marks they leave |
| RuleSets.OneRuleOnBothPaths | backend/maintenance.go:31-47 | any applying listed rule with a steady play time is listed once on connect, and by maintenance once for each of its two times, in whatever orders units are tried |
| RuleSets.ShakyRuleListedOnce | backend/maintenance.go:33-45 | a rule the two checks judge differently is listed once although it has both times |
| RuleSets.RealPathsAgreeExactly | backend/parse.go:268 | with the frontend's and the backend's rules on connect and the frontend's alone in maintenance, the lists agree exactly when no listed rule of the backend applies and each applying one of the frontend is timed once |
| RuleActions.Frontend.SayPlayer | backend/command.go:138-152 | the record queued, with the level clamped and a newline added, or none for an empty text |
| RuleActions.Frontend.MutePlayer | backend/command.go:36-52 | the timed or permanent mute command queued |
| RuleActions.Frontend.KickPlayer | backend/command.go:88-107 | the message, if any, and then the kick |
| RuleActions.Frontend.ApplyMatchedRules | backend/rules.go:474-507 | the records queued and the marks set for any list of rules, in any order |
| RuleActions.Frontend.ApplyRulesOnConnect | backend/parse.go:266-270 | the rules kept for the player, the records queued and the marks left on connect |
| RuleActions.Frontend.MaintainPlayer | backend/maintenance.go:26-47 | the records queued by a maintenance run about one player |
| RuleActions.NothingAfterBan | backend/rules.go:484-488 | on any list, sorted or not, nothing follows the kick of the first ban |
| RuleActions.SortedTrace | backend/rules.go:474-507 | on a sorted list a ban means one kick and nothing else; otherwise the actions of the mutes, of the stifles unless the player is muted by then, and of the messages follow each other |
| ActionLaws.OneRuleEmits | backend/rules.go:484-505 | what each kind of rule by itself sends, text for text |
| ActionLaws.SayLevels | backend/command.go:138-152 | a level is kept if it is one of the four and is the lowest otherwise |
| ActionLaws.MutedCommands | backend/rules.go:489-501 | on a player muted before or by a rule the only commands are permanent mutes, one for each mute rule |
| ActionLaws.StifledCommands | backend/rules.go:493-501 | otherwise each stifle rule in its order mutes for its own length, for good if that is not positive, and there is no other command |
| ActionLaws.SortedSpoken | backend/rules.go:474-507 | what is said, in order: each mute's message, the notices of the stifles unless held back, each message |
| ActionLaws.BannedTrace | backend/rules.go:484-488 | with a ban the whole trace is the lines of the first ban and one kick |
| ActionLaws.MutedAtLast | backend/rules.go:489-490 | after rules without a ban a player is muted exactly if before or by one of them |
| ActionLaws.StifledAtLast | backend/rules.go:493-499 | and stifled for the length of the last stifle, unless muted |
| ActionLaws.NoMarksAfterBan | backend/rules.go:484-488 | what stands behind the first ban leaves no mark |
| RuleActions.StifledOnConnectExactly | backend/rules.go:203-213 | on connect, without an applying ban or mute, stifles are acted on exactly if the player is neither muted before nor touched by any mute rule |
| RuleActions.SilencedStifle | backend/rules.go:203-213 | a mute rule that does not apply and yet keeps an applying stifle from being acted on |
| RuleActions.StifleForGoodExactly | backend/command.go:41-47 | the command for a stifle is the permanent mute exactly when its length is not positive |
| Delivery.ActionsArrive | backend/rules.go:474-507 | in a session in step, the trace of a list of rules that is not empty, queued and flushed, is read by the game server, once all is delivered, record by record behind all that was queued before |

## Left out

- Sockets, TCP segmentation, goroutine races, logging and SQL; rows are kept as a sequence.
- The inside of RSA, SHA-256, MD5 and AES, and random bytes.
- The greeting, the inside of the RSA handshake, handshakes that fail part-way, and two connections of one frontend at once.
- LockStep.LockStepHolds: it is false after a connection that ended undecryptable when the next is encrypted; LockStep.NextConnection says exactly when.
- Invites.BucketConserved: it is about one connection, because a new one brings a new bucket.
- The delay, the scope and the descriptions of rules, which no check reads; time zones, in which dated times are what the parser returns.
- Regular expressions, CIDR networks, DNS and date parsing; the model takes their results.
- Dispatch.Frontend.ParseCommand: what a teleport does behind its fields is not modelled.
- Dispatch.Frontend.AskInvite: the announcement on other frontends and the texts of the replies are not modelled.
- Dispatch.Frontend.ParseConnect: the rule check started for the new player is in RuleActions.Frontend.ApplyRulesOnConnect.
- Dispatch.Frontend.ParseMessage: a ping is recorded as handled; its effect on the session is in modules Session and LockStep.
- Dispatch.Frontend.ParsePlayerlist: when the message ends inside a list, the joins before the cut have taken place; the contract then says only that the message does not end normally.
- Dispatch.Frontend.ParsePrint: repeated stifles after chat lines and map rotation on a hit limit are not modelled.
- Dispatch.Frontend.ParsePlayer: field of view, port, hostname lookup and the database id of a player are not modelled.
- Dispatch.Frontend.ParsePlayerUpdate: the cookie set up for players without one is not modelled.
- Durations.DurationToSeconds: a decimal value is an exact real before it is truncated, without float64 rounding or overflow.
- Dispatch.Frontend.CalculateKDR: ratios are exact rationals, without float64 rounding.
- Session.Frontend.SendMessages: the program's IV shares storage with the outgoing buffer it was cut from; the model holds values and cannot show an overwrite through that alias.
- Session.Frontend.Write: the record appended must be one of those the emitters write; other raw bytes in the buffer are not modelled.
- RuleActions.Frontend.ApplyMatchedRules: records are shown with their text and the flush is left to Delivery.ActionsArrive, where both become bytes of the session.
- Delivery.ActionsArrive: an empty list of rules, for which nothing is sent, is excluded; messages of characters wider than a byte or with a zero character in them, and client numbers above 255, are not covered.
- RuleSets.CheckTimedRules: the loop over frontends and players around it is not modelled.
- Checks for nil pointers; Invite does pass a nil player to SayPlayer, which then says nothing.
- ParseFrag: ParseMessage never dispatches it.
- ConsoleSay, StuffPlayer, SayEveryone and StiflePlayer: further emitters of the same records.
- The website, OAuth, JWT sessions, SSH shell, gRPC server, proxy, templates, flood check, VPN cache and map lists.
