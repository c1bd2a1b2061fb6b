# CipherChat in Dafny

CipherChat is a demonstration of end-to-end encrypted chat between two fixed
users, Alice and Bob, in one browser page. Each user generates an RSA-OAEP key
pair. A key exchange has Alice generate an AES-256-GCM session key, wrap it
with Bob's public key and "send" it to Bob, who unwraps it, so both hold the
same session key. Messages are encrypted with that key before they reach the
server, and the receiving side decrypts them when a document-database
snapshot arrives. A status indicator follows the message in flight through
encrypting, sending, on server, delivered, decrypting and complete. A
dashboard shows each user's keys, the key exchange button and a log of every
cryptographic operation.

This project models that core and proves properties of the model:

- `wrappers.dfy` (`Wrappers`): `Option` and `Result`.
- `bytes.dfy` (`Bytes`): bytes and "binary strings", the JavaScript strings of
  char codes below 256 that `String.fromCharCode` builds and `btoa` accepts.
- `base64.dfy` (`Base64`): `btoa`, which is Base64 of RFC 4648 section 4,
  padded, and fails on a character above U+00FF. Also `atob`, the WHATWG
  forgiving-base64 decoder. It drops ASCII whitespace and one or two final `=`
  when the length is a multiple of four. It rejects a length of 1 modulo 4 and
  non-alphabet characters, and it discards leftover bits. The round trips are
  proved.
- `utf8.dfy` (`Utf8`): `TextEncoder`, which is UTF-8 of RFC 3629. Also
  `new TextDecoder().decode`, the WHATWG UTF-8 decoder. It replaces malformed
  input with U+FFFD and strips one leading byte order mark. The round trip
  holds except for a text that starts with U+FEFF.
- `crypto.dfy` (`Crypto`): the wrappers of `src/lib/crypto.ts`.
  - The two Base64 conversion loops are methods over arrays, proved against
    `ToBase64` and `FromBase64`.
  - Key generation is a function of an explicit random draw. Export and
    import take no draw: they are functions of the key or of the bytes.
  - `exportKey` gives a JWK with `kty`, `alg`, `e` and `n`, and a field
    `modulusLength` of the model's own: it stands for the length of `n`, so
    that an import can rebuild the key's parameters. The JWK members `ext` and
    `key_ops` are not modelled.
  - The browser's AES-GCM and RSA-OAEP are a `SubtleCrypto` value of function
    parameters. The laws the wrappers rely on form the predicate `Sound`.
    `ReferenceSubtle` is a concrete provider that satisfies it.
- `types.dfy` (`ChatTypes`): users, keys, stored records, messages, steps and
  the message status.
- `status_steps.dfy` (`StatusSteps`): the status indicator's six steps and
  what it draws for each.
- `key_panel.dfy` (`KeyPanel`): the dashboard's cards, exchange button, hint
  and log.
- `message_store.dfy` (`MessageStore`): the in-memory store of
  `src/app/actions.ts`.
  - The store is a class with `sendMessage` and `getMessages`.
  - The long-poll `subscribeToMessages` is a function over the events that
    follow the call.
- `chat.dfy` (`CryptoChat`): the controller hook `use-crypto-chat.ts`.
  - Each handler is one step on a `ChatState`. The handlers are
    `handleGenerateKeys`, `handleKeyExchange`, `handleSendMessage`,
    `switchUser`, the snapshot listener and the status reset timer.
  - The class `Chat` has the hook's state as fields. Its methods are proved to
    perform exactly those steps.
  - A ghost field `statusTrace` records every value `messageStatus` is set
    to, one entry per `setMessageStatus` call. `HandleSendMessage` is proved
    to set the statuses `SendStatuses` lists, in that order. `OnSnapshot`
    makes one call per functional update the listener's records make, and
    the statuses it sets are `SnapshotStatuses`. A snapshot in which no
    record matches the captured status sets nothing.
  - A call the handlers await may reject, and nothing catches it. The model
    keeps the state reached before the rejection: `GenerateKeys` with no
    draw, and the send outcomes `EncryptRejected` and `SendRejected`.
  - The lock glyph in "Encrypted for" and "Decryption Failed" is written in
    the source as the four characters U+00F0 U+0178 U+201D U+2019. These are the
    UTF-8 bytes of U+1F512 read as Windows-1252. The model uses those four
    characters.

Design points the model makes explicit:

- **The snapshot listener closes over old state.** The effect is re-installed
  only when the active user or a session key changes (dependency list at
  `use-crypto-chat.ts:216`). Its callback therefore sees `messages` and
  `messageStatus` as they were at installation. `ChatState.listener` records
  that view. `StaleStatusIsNeverAdvanced` proves that when the listener was
  installed while there was no status, it never changes the status, whatever
  was set afterwards. A listener installed with a status does compare against
  that captured status.
- **Status ids and record ids do not meet.** The status carries the clock
  reading `tempId`, a number. Snapshot records carry document ids, which are
  strings. `ClockIdsNeverReachDecrypting` proves that a snapshot of records
  with document ids never moves such a status to decrypting or complete, and
  never starts the reset timer. Its premise assumes documents without an `id`
  field of their own: in `{ id: doc.id, ...data }` a stored `id` would
  replace the document id.
- **`Promise.all` interleaving.** The listener's per-record callbacks run
  concurrently. Each callback's first status update, "delivered" or
  "decrypting", happens before any `await`. "Complete" happens after the
  decryption. The model applies all first updates in record order, then all
  later ones in record order. That is the order a run takes when the
  decryptions settle in list order.
- **The send outcome is an input.** `handleSendMessage` tests
  `result.success`, but what the call returns is not derived from the store.
  The model takes a `SendResult` parameter instead. It has four values:
  success, a reported failure, a rejected `sendMessage` and a rejected
  `encryptWithAes`. The literal reading of the code is recorded under
  Findings.
- **`subscribeToMessages` matches on the recipient only**
  (`actions.ts:41`). A message the subscriber sent does not resolve its
  subscription. The model follows the code.

## Model

| member | source | states |
|---|---|---|
| Bytes.Latin1 | src/lib/crypto.ts:3-8 | the string built by the loop has one character per byte, each below 256 |
| Bytes.CodesOfLatin1 | src/lib/crypto.ts:7-18 | reading back `charCodeAt` of the string built by `fromCharCode` gives the original bytes |
| Bytes.Latin1OfCodes | src/lib/crypto.ts:14-19 | a binary string is rebuilt exactly from its char codes |
| Bytes.Latin1Append | src/lib/crypto.ts:6-8 | one loop step appends exactly the character of the next byte |
| Base64.SextetOfCharOf | src/lib/crypto.ts:9-14 | the Base64 alphabet maps each 6-bit value to a character that decodes back to it |
| Base64.AlphabetIsNotSpecial | src/lib/crypto.ts:14 | no alphabet character is padding or whitespace, so `atob`'s stripping never removes data |
| Base64.ToSextets | src/lib/crypto.ts:9 | a byte string splits into 4 values per full group of 3 and n+1 for a final group of n |
| Base64.FromToSextets | src/lib/crypto.ts:9-14 | regrouping the 6-bit values of a byte string into bytes gives back the byte string |
| Base64.Chars | src/lib/crypto.ts:9 | each 6-bit value becomes one alphabet character |
| Base64.Encode | src/lib/crypto.ts:9 | the output has length 4*ceil(n/3) and holds only alphabet characters and `=` |
| Base64.Btoa | src/lib/crypto.ts:9 | `btoa` succeeds exactly on binary strings and throws otherwise |
| Base64.StripWhitespace | src/lib/crypto.ts:14 | `atob`'s whitespace removal keeps only non-whitespace characters of its input |
| Base64.Atob | src/lib/crypto.ts:14 | whatever `atob` returns is a binary string |
| Base64.StripWhitespaceAppend | src/lib/crypto.ts:14 | the whitespace removal distributes over concatenation, so the characters it keeps stay in their order |
| Base64.StripWhitespaceOfChar | src/lib/crypto.ts:14 | a single character is dropped exactly when it is ASCII whitespace, and kept otherwise |
| Base64.StripWhitespaceNone | src/lib/crypto.ts:14 | a string without ASCII whitespace is unchanged by the whitespace removal |
| Base64.StripPaddingOfEncode | src/lib/crypto.ts:9-14 | removing the padding of an encoding leaves exactly its alphabet characters |
| Base64.SextetsOfChars | src/lib/crypto.ts:9-14 | decoding alphabet characters gives back their 6-bit values |
| Base64.AtobOfEncode | src/lib/crypto.ts:9-14 | `atob` of the Base64 of bytes is the binary string of those bytes |
| Base64.AtobBtoa | src/lib/crypto.ts:9-14 | for a binary string, `btoa` succeeds and `atob` of its result is the string |
| Base64.EncodeInjective | src/lib/crypto.ts:9 | different byte strings have different encodings |
| Base64.AtobDiscardsLeftoverBits | src/lib/crypto.ts:14 | `atob` accepts non-canonical padding bits: "QR==" and "QQ==" both decode to "A" |
| Base64.AtobOfTwoChars | src/lib/crypto.ts:14 | a group of two characters and `==` decodes to the one byte of their leading 8 bits |
| Utf8.EncodeChar | src/lib/crypto.ts:106 | a character encodes to 1 to 4 bytes |
| Utf8.Encode | src/lib/crypto.ts:106 | a text of n characters encodes to between n and 4n bytes |
| Utf8.DecodeStep | src/lib/crypto.ts:137 | each decoding step consumes at least one byte of the input and no more than its length |
| Utf8.DecodeAll | src/lib/crypto.ts:137 | decoding never produces more characters than there are bytes |
| Utf8.Decode | src/lib/crypto.ts:137 | `TextDecoder` never produces more characters than there are bytes |
| Utf8.DecodeStepOfEncodeChar | src/lib/crypto.ts:106-137 | the decoder reads back the character at the head of its encoding and consumes exactly that encoding |
| Utf8.DecodeAllEncode | src/lib/crypto.ts:106-137 | decoding with replacement an encoded text gives the text |
| Utf8.DecodeEncode | src/lib/crypto.ts:106-137 | `TextDecoder` after `TextEncoder` returns the text, without a leading U+FEFF, and is the identity exactly when the text does not start with U+FEFF |
| Utf8.LoneContinuationIsReplaced | src/lib/crypto.ts:137 | any continuation byte, or any byte that never starts a sequence, met where a character should start decodes to U+FFFD, and decoding resumes at the next byte |
| Crypto.ToBase64 | src/lib/crypto.ts:2-10 | the result is what `btoa` returns on the binary string of the bytes |
| Crypto.FromBase64 | src/lib/crypto.ts:13-21 | it fails exactly when `atob` throws, and otherwise gives the bytes of `atob`'s binary string |
| Crypto.FromBase64OfToBase64 | src/lib/crypto.ts:2-21 | `base64ToArrayBuffer(arrayBufferToBase64(b))` is `b` |
| Crypto.ArrayBufferToBase64 | src/lib/crypto.ts:2-10 | the loop builds the binary string of the buffer, and the result is `btoa` of it |
| Crypto.Base64ToArrayBuffer | src/lib/crypto.ts:13-21 | the loop fills the array with the char codes of `atob`'s output: same length, byte i is char code i, and it fails exactly when `atob` throws |
| Crypto.GenerateRsaKeyPair | src/lib/crypto.ts:24-35 | a 2048-bit RSA-OAEP SHA-256 key pair whose halves belong together |
| Crypto.ExportKey | src/lib/crypto.ts:38-40 | computes the JWK export; `Crypto.ImportRsaPublicKey` and `Crypto.ImportOfExport` state that it imports back to the key |
| Crypto.ImportRsaPublicKey | src/lib/crypto.ts:43-54 | the import succeeds exactly on an RSA-OAEP-256 JWK and yields a key that exports back to that JWK |
| Crypto.ImportOfExport | src/lib/crypto.ts:38-54 | importing the JWK export of a SHA-256 RSA public key gives back the key |
| Crypto.GenerateAesKey | src/lib/crypto.ts:57-66 | the session key is 256 bits, so its raw export is 32 bytes |
| Crypto.ImportAesKey | src/lib/crypto.ts:69-79 | a raw import succeeds exactly for 16, 24 or 32 bytes and exports back to them |
| Crypto.ExportAesKeyRaw | src/hooks/use-crypto-chat.ts:74 | the raw export of a session key; `Crypto.GenerateAesKey` and `Crypto.ImportAesKey` state its length and that it imports back |
| Crypto.ImportOfExportAes | src/lib/crypto.ts:57-79 | importing the raw export of a generated session key gives back that key |
| Crypto.EncryptWithRsa | src/lib/crypto.ts:82-90 | computes `encryptWithRsa`, failing with an operation error when the provider refuses; `Crypto.RsaRoundTrip` states what it promises |
| Crypto.DecryptWithRsa | src/lib/crypto.ts:93-101 | computes `decryptWithRsa`, failing with an operation error when the provider refuses; `Crypto.RsaRoundTrip` states what it promises |
| Crypto.EncryptWithAes | src/lib/crypto.ts:104-121 | computes `encryptWithAes`; `Crypto.EnvelopeDecodes` and `Crypto.AesRoundTrip` state what it promises |
| Crypto.DecryptWithAes | src/lib/crypto.ts:124-138 | computes `decryptWithAes`; `Crypto.DecryptWithAesOutcome`, `Crypto.AesRoundTrip` and `Crypto.AesWrongKeyFails` state what it promises |
| Crypto.ReferenceSubtleIsSound | src/lib/crypto.ts:82-135 | the cipher laws assumed of WebCrypto are satisfiable by a concrete provider |
| Crypto.RsaRoundTrip | src/lib/crypto.ts:24-101 | up to 190 bytes encrypted under the imported public key of a generated pair are recovered by its private key and by no other pair's key |
| Crypto.EnvelopeDecodes | src/lib/crypto.ts:104-121 | the envelope's IV is 16 Base64 characters decoding to the 12 IV bytes, and its ciphertext decodes to the AES-GCM output on the UTF-8 text |
| Crypto.DecryptWithAesOutcome | src/lib/crypto.ts:124-138 | decryption yields text exactly when both Base64 decodings and the tag check succeed, and the text is the UTF-8 decoding of the plaintext bytes |
| Crypto.AesRoundTrip | src/lib/crypto.ts:104-138 | an envelope decrypts under its key to the plaintext, less a leading U+FEFF |
| Crypto.AesWrongKeyFails | src/lib/crypto.ts:124-138 | under another key of the same size the envelope fails with an operation error |
| Crypto.DistinctIvsGiveDistinctEnvelopes | src/lib/crypto.ts:105-120 | envelopes made with different IVs carry different IV strings |
| StatusSteps.FindIndex | src/app/components/chat/MessageStatus.tsx:20 | `findIndex` is -1 exactly when no step matches, and otherwise the first matching position |
| StatusSteps.RenderStep | src/app/components/chat/MessageStatus.tsx:26-49 | computes one step's view; the lemmas below state how highlighting, the spinner and connectors follow the position |
| StatusSteps.Render | src/app/components/chat/MessageStatus.tsx:25-52 | one view is drawn per step, six in all |
| StatusSteps.IdleIsNotListed | src/app/components/chat/MessageStatus.tsx:10-20 | the idle status is at no position, index -1 |
| StatusSteps.StepsInOrder | src/app/components/chat/MessageStatus.tsx:10-20 | the steps are encrypting, sending, sent, delivered, decrypting and complete, and each step's index is its position |
| StatusSteps.ActiveStepsFormPrefix | src/app/components/chat/MessageStatus.tsx:26 | a step is highlighted exactly when it is at or before the current position, and none is while idle |
| StatusSteps.ActiveIsDownwardClosed | src/app/components/chat/MessageStatus.tsx:26 | every step before a highlighted step is highlighted |
| StatusSteps.AtMostOneCurrent | src/app/components/chat/MessageStatus.tsx:27 | at most one step is current |
| StatusSteps.CurrentExistsUnlessIdle | src/app/components/chat/MessageStatus.tsx:20-27 | some step is current exactly when the status is not idle |
| StatusSteps.SpinnerOnlyForBusySteps | src/app/components/chat/MessageStatus.tsx:28 | the loader icon replaces a step's icon exactly on the current step while encrypting, sending or decrypting |
| StatusSteps.CurrentStepSpins | src/app/components/chat/MessageStatus.tsx:40 | exactly the current step's icon spins |
| StatusSteps.Connectors | src/app/components/chat/MessageStatus.tsx:44-48 | every step but the last has a connector, which is highlighted exactly before the current position and joins two highlighted steps |
| KeyPanel.RenderUser | src/app/components/chat/KeyManagementPanel.tsx:18-45 | computes a user card; `KeyPanel.UserCardBadges` states what it shows |
| KeyPanel.Render | src/app/components/chat/KeyManagementPanel.tsx:47-104 | computes the panel; `KeyPanel.ExchangeButton`, `KeyPanel.NoExchangeOnceSessionActive` and `KeyPanel.LogListing` state what it shows |
| KeyPanel.CanExchange | src/app/components/chat/KeyManagementPanel.tsx:49 | `canExchange`: both users have key pairs; used by `KeyPanel.ExchangeButton` |
| KeyPanel.SessionActive | src/app/components/chat/KeyManagementPanel.tsx:50 | `sessionActive`: both users have a session key; used by `KeyPanel.ExchangeButton` |
| KeyPanel.ExchangeButton | src/app/components/chat/KeyManagementPanel.tsx:49-77 | the exchange button is enabled exactly when both users have key pairs and not both a session key, with the label and the hint following the same state |
| KeyPanel.NoExchangeOnceSessionActive | src/app/components/chat/KeyManagementPanel.tsx:73-75 | once both session keys exist the button is disabled and reads "Session Key Established" |
| KeyPanel.UserCardBadges | src/app/components/chat/KeyManagementPanel.tsx:18-45 | a card shows "Keys Generated" or "No Keys", the session badge and the Generate button as the user's keys say |
| KeyPanel.LogListing | src/app/components/chat/KeyManagementPanel.tsx:90-95 | the log lists entries in append order, and the empty-log text shows exactly when there is none |
| MessageStore.Stored | src/app/actions.ts:17-20 | the stored record is the outgoing message with the clock reading as its id |
| MessageStore.Store.constructor | src/app/actions.ts:7-12 | the store starts with no message and no announcement |
| MessageStore.Store.SendMessage | src/app/actions.ts:14-28 | the record is appended to the store, announced once, and returned |
| MessageStore.Store.GetMessages | src/app/actions.ts:32-34 | all stored records are returned, in insertion order |
| MessageStore.SameClockSameId | src/app/actions.ts:19 | two messages stored at the same clock reading get the same id, so ids are not unique |
| MessageStore.Subscribe | src/app/actions.ts:38-53 | a subscription that resolves with a message resolves with one of the events' messages addressed to the subscriber; one that resolves with null has seen the timeout |
| MessageStore.ResolvedMessageMatches | src/app/actions.ts:38-53 | a resolved subscription was decided by its first event that is not a message for someone else, and a message it resolves with is addressed to the subscriber |
| MessageStore.FirstDecisiveEventResolves | src/app/actions.ts:40-52 | conversely, that first event decides: a message for the subscriber resolves with it, the timeout with null |
| MessageStore.PendingWhileAllSkipped | src/app/actions.ts:40-46 | a subscription is pending exactly while every event is a message for someone else |
| MessageStore.ResolvesAtMostOnce | src/app/actions.ts:42-52 | once resolved, later messages and the late timer change nothing |
| MessageStore.SendResolvesWaitingSubscriber | src/app/actions.ts:22-45 | storing a message for a waiting subscriber resolves its subscription with that record |
| CryptoChat.InitialUsers | src/hooks/use-crypto-chat.ts:22-25 | both users start without keys and without a session key |
| CryptoChat.InitialStateIsEmpty | src/hooks/use-crypto-chat.ts:22-32 | the hook starts with no keys, messages, logs or status, the invariants hold, and the panel offers no exchange |
| CryptoChat.GenerateKeys | src/hooks/use-crypto-chat.ts:48-58 | computes the key generation step; `CryptoChat.GenerateKeysEffect` and `CryptoChat.GenerateKeysRejected` state its effect |
| CryptoChat.GenerateKeysRejected | src/hooks/use-crypto-chat.ts:48-51 | when key generation or export rejects, only the "Generating" log line is added, and the invariants are kept |
| CryptoChat.GenerateKeysEffect | src/hooks/use-crypto-chat.ts:48-58 | the user gets a 2048-bit pair, the other user and all else are kept, two log lines are added, and the invariants are preserved |
| CryptoChat.KeyExchange | src/hooks/use-crypto-chat.ts:60-102 | it does nothing exactly when a user lacks keys; an aborted exchange adds 3 to 7 of the 8 log lines and nothing else; a completed one adds all 8 and sets both session keys, leaving key pairs and messages alone |
| CryptoChat.ExchangeEstablishesSharedKey | src/hooks/use-crypto-chat.ts:72-95 | with both key pairs present the exchange completes, both users hold the same freshly generated session key, and the invariants hold |
| CryptoChat.ExchangeKeepsInvariants | src/hooks/use-crypto-chat.ts:60-102 | the exchange, whatever its outcome, keeps the key pairs well-formed and the session keys agreeing |
| CryptoChat.SecondExchangeIsNotRefused | src/hooks/use-crypto-chat.ts:60-102 | after an exchange the panel disables the button, but the handler itself would run again and replace both session keys with a new one |
| CryptoChat.Prefix | src/hooks/use-crypto-chat.ts:122 | `substring(0, 20)` is a prefix of at most 20 characters, the whole string when shorter |
| CryptoChat.SendStatuses | src/hooks/use-crypto-chat.ts:108-155 | a send sets at least one status, the first being idle for the clock id; `CryptoChat.SendStatusProgress` states the whole sequence |
| CryptoChat.Send | src/hooks/use-crypto-chat.ts:104-157 | computes the send step; the lemmas below state its effect for each outcome |
| CryptoChat.WithoutId | src/hooks/use-crypto-chat.ts:154 | the filter never lengthens the list and keeps only messages of the list with another id |
| CryptoChat.WithoutIdConcat | src/hooks/use-crypto-chat.ts:154 | filtering by id distributes over concatenation |
| CryptoChat.WithoutIdMembers | src/hooks/use-crypto-chat.ts:154 | the filter keeps exactly the messages with another id |
| CryptoChat.WithoutIdAbsent | src/hooks/use-crypto-chat.ts:154 | filtering an id no message has changes nothing |
| CryptoChat.SendWithoutSession | src/hooks/use-crypto-chat.ts:107-117 | without a session key only the status changes, to idle for the new message |
| CryptoChat.SendStartsWithKey | src/hooks/use-crypto-chat.ts:108-121 | with a session the statuses begin idle, encrypting, and a rejected encryption stops after one log line with the status at encrypting |
| CryptoChat.SendWithKey | src/hooks/use-crypto-chat.ts:119-156 | with a session, once the message is encrypted, the new state for a rejected `sendMessage`, a success and a reported failure |
| CryptoChat.SendStatusProgress | src/hooks/use-crypto-chat.ts:108-155 | with a session the statuses are idle and then the indicator's steps one position at a time, for the clock id: 2 when encryption rejects, 3 when `sendMessage` rejects, 4 otherwise; only a reported failure clears the status, and only as the fourth |
| CryptoChat.SendEndsAtLastStatus | src/hooks/use-crypto-chat.ts:108-155 | the status a send leaves is the last one it sets |
| CryptoChat.SendRejections | src/hooks/use-crypto-chat.ts:119-145 | a rejected encryption leaves the messages alone and the status at encrypting after one log line; a rejected `sendMessage` keeps the optimistic message in the list and the status at sending |
| CryptoChat.OptimisticMessageDecrypts | src/hooks/use-crypto-chat.ts:119-135 | the optimistic message has the clock id, the other user as recipient, the plaintext shown, and its envelope decrypts to the plaintext |
| CryptoChat.SendSucceeds | src/hooks/use-crypto-chat.ts:119-149 | on success the optimistic message is appended, three log lines are added ending with the sent line, and the status is sent |
| CryptoChat.SendFails | src/hooks/use-crypto-chat.ts:150-156 | on failure every message with the clock id is removed, which is the previous list when none had it, and the status is cleared |
| CryptoChat.SendAsWritten | src/hooks/use-crypto-chat.ts:139-156 | the send as written, taking the outcome from the stored record; `CryptoChat.SendAsWrittenNeverReportsSent` states its effect |
| CryptoChat.SendAsWrittenNeverReportsSent | src/hooks/use-crypto-chat.ts:139-156 | as written, a send with a session never reaches sent: the message is removed again and the status cleared |
| CryptoChat.SwitchUser | src/hooks/use-crypto-chat.ts:159-161 | computes the switch and the listener it re-installs; `CryptoChat.SwitchTwice` states its effect |
| CryptoChat.SwitchTwice | src/hooks/use-crypto-chat.ts:159-161 | switching changes the active user, switching twice restores all but the re-installed listener, and the invariants are kept |
| CryptoChat.MapSnapshot | src/hooks/use-crypto-chat.ts:168-210 | the list shown has one message per record, in order, carrying the record's fields, the text the rules choose, and `isDecrypting` false |
| CryptoChat.ShownText | src/hooks/use-crypto-chat.ts:178-206 | computes the text shown for one record; `CryptoChat.ShownTextPrecedence` and `CryptoChat.ShownTextForRecipient` state its rules |
| CryptoChat.ShownTextPrecedence | src/hooks/use-crypto-chat.ts:179-206 | own messages show their plaintext; messages for the active user with a key show the decryption or "Decryption Failed"; all others show "Encrypted for" the recipient |
| CryptoChat.FindExisting | src/hooks/use-crypto-chat.ts:185 | `messages.find` returns the first message with the id, or with the same ciphertext and sender, and nothing when none matches |
| CryptoChat.Decimal | src/hooks/use-crypto-chat.ts:199 | a clock id is written as a non-empty string of digits without a leading zero, whose value is the id |
| CryptoChat.EffectOf | src/hooks/use-crypto-chat.ts:178-203 | computes one record's status updates and log line; `CryptoChat.ClockIdsNeverReachDecrypting` and `CryptoChat.StaleStatusIsNeverAdvanced` state what they can do |
| CryptoChat.ApplySteps | src/hooks/use-crypto-chat.ts:187-196 | the functional status updates never create or clear a status and never change its message id |
| CryptoChat.StatusesSet | src/hooks/use-crypto-chat.ts:186-196 | one value is set per update made, and the last value set is the status the updates leave; with none made the status is unchanged |
| CryptoChat.ApplyNothing | src/hooks/use-crypto-chat.ts:186-197 | without updates the status is unchanged, none is set and no reset timer starts |
| CryptoChat.ApplyOnlyDelivered | src/hooks/use-crypto-chat.ts:186-188 | updates that only mark delivered leave the status either as it was or delivered |
| CryptoChat.Snapshot | src/hooks/use-crypto-chat.ts:167-211 | computes the listener's step; `CryptoChat.SnapshotEffect` states its effect |
| CryptoChat.SnapshotEffect | src/hooks/use-crypto-chat.ts:167-211 | a snapshot replaces the messages by one per record, keeps users, active user and listener, keeps the status id, and appends at most one log line per record |
| CryptoChat.StaleStatusIsNeverAdvanced | src/hooks/use-crypto-chat.ts:186-216 | when the listener was installed with no status, a snapshot never sets or changes the status and never starts a reset |
| CryptoChat.ClockIdsNeverReachDecrypting | src/hooks/use-crypto-chat.ts:186-197 | with a clock-id status and document-id records the status is at most marked delivered, and no reset starts |
| CryptoChat.ShownTextForRecipient | src/hooks/use-crypto-chat.ts:189-203 | for the recipient with a session key the text shown is the decryption, or "Decryption Failed" when it throws |
| CryptoChat.SessionKeyForName | src/hooks/use-crypto-chat.ts:181 | the key picked by recipient name is that user's session key |
| CryptoChat.SentMessageReadsBackForRecipient | src/hooks/use-crypto-chat.ts:104-206 | after an exchange, a sent message stored under any id reads back as its plaintext for the recipient after switching, and for the sender |
| CryptoChat.MismatchedSessionShowsFailure | src/hooks/use-crypto-chat.ts:189-203 | when the two users' session keys differ, the recipient sees "Decryption Failed" |
| CryptoChat.StepsKeepInvariants | src/hooks/use-crypto-chat.ts:104-211 | sending, snapshots and the reset timer leave the users unchanged and keep the invariants |
| CryptoChat.Chat.constructor | src/hooks/use-crypto-chat.ts:28-32 | the hook's state starts as the initial state |
| CryptoChat.Chat.AddLog | src/hooks/use-crypto-chat.ts:35-40 | the entry is appended to the log and nothing else changes |
| CryptoChat.Chat.HandleGenerateKeys | src/hooks/use-crypto-chat.ts:48-58 | the handler performs exactly the key generation step, also when generation rejects, and sets no status |
| CryptoChat.Chat.HandleKeyExchange | src/hooks/use-crypto-chat.ts:60-102 | the handler performs exactly the exchange step, returning its outcome |
| CryptoChat.Chat.SetStatus | src/hooks/use-crypto-chat.ts:108 | `setMessageStatus` sets the status, records the value in the trace, and changes nothing else |
| CryptoChat.Chat.HandleSendMessage | src/hooks/use-crypto-chat.ts:104-157 | the handler performs exactly the send step, and the statuses it sets are exactly `SendStatuses`, in order |
| CryptoChat.Chat.SendWithSession | src/hooks/use-crypto-chat.ts:118-157 | with a session key, the handler performs the send step and sets the statuses `SendStatuses` lists |
| CryptoChat.Chat.BeginSend | src/hooks/use-crypto-chat.ts:119-120 | the status becomes encrypting via idle, with both values recorded, and the encrypting line is logged |
| CryptoChat.Chat.QueueAndSettle | src/hooks/use-crypto-chat.ts:121-156 | after the encrypting line, the handler reaches the send step's state for the outcome and sets the statuses that follow encryption |
| CryptoChat.Chat.QueueEncrypted | src/hooks/use-crypto-chat.ts:121-137 | the encrypted line is logged, the optimistic message appended and the status set to sending |
| CryptoChat.Chat.SettleSend | src/hooks/use-crypto-chat.ts:147-156 | on success the sent line is logged and the status is sent; otherwise the clock id's messages are removed and the status cleared |
| CryptoChat.Chat.SwitchUserStep | src/hooks/use-crypto-chat.ts:159-161 | the handler performs exactly the switch step |
| CryptoChat.Chat.OnSnapshot | src/hooks/use-crypto-chat.ts:167-211 | the listener performs exactly the snapshot step, sets exactly the statuses `SnapshotStatuses` lists, and reports how many reset timers it started |
| CryptoChat.Chat.ApplyPhases | src/hooks/use-crypto-chat.ts:177-207 | the early updates of all records are made, then the late ones, and the trace grows by the statuses of each phase |
| CryptoChat.Chat.ApplyUpdates | src/hooks/use-crypto-chat.ts:187-196 | the loop makes one `setMessageStatus` call per update, in order, leaving the status `ApplySteps` gives and changing nothing else |
| CryptoChat.Chat.ResetElapsed | src/hooks/use-crypto-chat.ts:42-46 | when a reset timer fires the status is cleared |

## Findings

| source | as written | input that shows it | evidently intended | confidence | as-written member | corrected member |
|---|---|---|---|---|---|---|
| src/hooks/use-crypto-chat.ts:139-149 | `result.success` is read from what `sendMessage` returns, but that is the stored record, which has no `success` field, so the success branch never runs | any send after a completed key exchange | take the success branch when `sendMessage` resolves and report sent | high (not executed) | CryptoChat.SendAsWrittenNeverReportsSent | CryptoChat.SendSucceeds |

## Left out

- Randomness and clocks are parameters. These cover `crypto.getRandomValues`, key generation, the OAEP seed, `Date.now()` as a message id, and `Timestamp.now()`.
- IV uniqueness: AES-GCM needs a fresh IV for every message under one key (section 8 of NIST SP 800-38D). The model takes each IV as a parameter and assumes uniqueness of the random source. It states this property nowhere, and `Crypto.DistinctIvsGiveDistinctEnvelopes` holds only for IVs that differ.
- The ciphers themselves: AES-GCM and RSA-OAEP are function parameters with laws, the predicate `Crypto.Sound`. RSA keys are a pair identifier, not a modulus. The JWK's `n` is that identifier, and `e` is the public exponent's big-endian bytes, not Base64url text.
- `generateAesKey` and `crypto.subtle.exportKey('raw', …)` in `handleKeyExchange` (`use-crypto-chat.ts:73-74`) are taken never to reject, since a browser does not refuse them for these parameters. A rejection there would abort the exchange after two log lines; `CryptoChat.KeyExchange` gives no such outcome.
- The document database. The snapshot is an input list of records in the query's timestamp order. `src/lib/firebase.ts` is not part of this model.
- How `sendMessage` reaches the database: the store of `actions.ts` and the snapshot are not connected. The outcome of the call is a `SendResult` input, and so is a rejection by `encryptWithAes`.
- Concurrency: each handler runs to completion as one step. The `Promise.all` callbacks are applied in two phases, as described above. React's batching of state updates is not modelled; a functional update is applied where it is called.
- Timers: the 2 s status reset is the explicit step `DisplayDelayElapsed`. The 30 s subscription timeout is the event `TimeoutElapsed`.
- Toasts and `console` output.
- The log entries' ids (`Date.now() + Math.random()`), which only serve as React keys.
- The optimistic message's `timestamp` field.
- The Generate button is not modelled as calling `handleGenerateKeys`. `KeyDisplay` (`KeyManagementPanel.tsx:18-45`) calls an `onGenerateKeys` that it is passed but never takes from its props. The card only records whether the button is shown.
- Lone surrogates: a Dafny `char` is a Unicode scalar value. Texts that `TextEncoder` would repair are therefore not representable.
- Number formatting: `Decimal` writes the digits of a clock id. JavaScript's exponent form for numbers of 10^21 and above is not modelled.
- `MessageStatus` is not declared in `src/lib/types.ts`. `Message` there lacks `isDecrypting` and types `id` as a number. The model takes both from their uses: `id` is a clock reading or a document key.
- The chat window, message bubbles, avatars, the header and the message input are presentation.
- Toasts on a rejected call: a promise a handler awaits that rejects ends the handler with the state reached so far. The unhandled rejection itself is not modelled.
- MessageStore.Store.SendMessage: the `console.log` of the received message is not modelled.
