/**
 * The chat controller hook: the users' keys, the message list, the append-only
 * operations log, the active user and the status of the message in flight,
 * with the handlers that change them and the mapping of a document-database
 * snapshot to the messages shown.
 *
 * Each handler is one atomic step on a `ChatState`, defined as a function and
 * carried out by the methods of `Chat`, whose fields are the hook's state.
 * Random draws, clock readings, the send outcome and the snapshot are inputs.
 */
module CryptoChat {
  import opened Wrappers
  import opened Bytes
  import Crypto
  import Utf8
  import opened ChatTypes
  import StatusSteps
  import KeyPanel
  import MessageStore

  // ---------------------------------------------------------------------------
  // State
  // ---------------------------------------------------------------------------

  function Other(p: Party): Party {
    match p
    case Alice => Bob
    case Bob => Alice
  }

  /**
   * What the snapshot listener closed over when it was last installed: the
   * listener is re-installed only when the active user or a session key
   * changes, so it sees the message list and status of that moment.
   */
  datatype Listener = Listener(seenMessages: seq<Message>, seenStatus: Option<MessageStatus>)

  datatype ChatState = ChatState(
    users: Users,
    messages: seq<Message>,
    cryptoLogs: seq<string>,
    activeUser: Party,
    messageStatus: Option<MessageStatus>,
    listener: Listener)

  /** `initialUsers`: both users without keys. */
  function InitialUsers(): (u: Users)
    ensures u.alice.keys.None? && u.bob.keys.None?
    ensures u.alice.sessionKey.None? && u.bob.sessionKey.None?
  {
    Users(UserKeys("Alice", None, None), UserKeys("Bob", None, None))
  }

  /** The state on mount: Alice is active, nothing is logged, no status is shown. */
  function Initial(): ChatState {
    ChatState(InitialUsers(), [], [], Alice, None, Listener([], None))
  }

  /** The keys a generated pair is stored as: the private key and the exported public key. */
  function StoredKeysOf(kp: Crypto.RsaKeyPair): StoredKeys {
    StoredKeys(kp.privateKey, Crypto.ExportKey(kp.publicKey))
  }

  /** Stored keys that some key generation produced. */
  predicate WellFormedKeys(k: StoredKeys) {
    k == StoredKeysOf(Crypto.GenerateRsaKeyPair(k.privateKey.pairId))
  }

  /** The invariant every reachable state keeps: names match and stored keys are generated ones. */
  predicate Valid(s: ChatState) {
    && s.users.alice.name == "Alice" && s.users.bob.name == "Bob"
    && (s.users.alice.keys.Some? ==> WellFormedKeys(s.users.alice.keys.value))
    && (s.users.bob.keys.Some? ==> WellFormedKeys(s.users.bob.keys.value))
  }

  /** Alice and Bob hold the same session key, or neither holds one. */
  predicate SessionsAgree(s: ChatState) {
    s.users.alice.sessionKey == s.users.bob.sessionKey
  }

  /** Initially both users lack key pairs and session keys, and the invariants hold. */
  lemma InitialStateIsEmpty()
    ensures forall p :: Initial().users.Get(p).keys.None? && Initial().users.Get(p).sessionKey.None?
    ensures Initial().cryptoLogs == [] && Initial().messages == [] && Initial().messageStatus.None?
    ensures Valid(Initial()) && SessionsAgree(Initial())
    ensures !KeyPanel.CanExchange(Initial().users) && !KeyPanel.SessionActive(Initial().users)
  {
  }

  // ---------------------------------------------------------------------------
  // Key generation
  // ---------------------------------------------------------------------------

  function GeneratingLog(name: string): string {
    "Generating RSA key pair for " + name + "..."
  }

  function GeneratedLog(name: string): string {
    name + "'s RSA key pair generated and stored."
  }

  /**
   * `handleGenerateKeys(p)` with the key pair drawn by `draw`, or, for `None`,
   * a `generateKey` or `exportKey` that rejects: the handler then stops after
   * its first log entry.
   */
  function GenerateKeys(s: ChatState, p: Party, draw: Option<nat>): ChatState {
    var logs := s.cryptoLogs + [GeneratingLog(Name(p))];
    match draw
    case None => s.(cryptoLogs := logs)
    case Some(d) =>
      var kp := Crypto.GenerateRsaKeyPair(d);
      s.(users := s.users.Set(p, s.users.Get(p).(keys := Some(StoredKeysOf(kp)))),
         cryptoLogs := logs + [GeneratedLog(Name(p))])
  }

  /** A rejected generation leaves everything as it was but for the first log entry. */
  lemma GenerateKeysRejected(s: ChatState, p: Party)
    ensures GenerateKeys(s, p, None) == s.(cryptoLogs := s.cryptoLogs + [GeneratingLog(Name(p))])
    ensures Valid(s) ==> Valid(GenerateKeys(s, p, None))
    ensures SessionsAgree(s) ==> SessionsAgree(GenerateKeys(s, p, None))
  {
  }

  /**
   * Generating keys sets that user's key pair and nothing else of the users;
   * two log entries are appended and the invariants are kept.
   */
  lemma GenerateKeysEffect(s: ChatState, p: Party, draw: nat)
    ensures var r := GenerateKeys(s, p, Some(draw));
      && r.users.Get(p).keys.Some?
      && r.users.Get(p).keys.value.privateKey.params == Crypto.RsaOaep2048
      && r.users.Get(p).name == s.users.Get(p).name
      && r.users.Get(p).sessionKey == s.users.Get(p).sessionKey
      && r.users.Get(Other(p)) == s.users.Get(Other(p))
      && r.cryptoLogs == s.cryptoLogs + [GeneratingLog(Name(p)), GeneratedLog(Name(p))]
      && r.messages == s.messages && r.activeUser == s.activeUser
      && r.messageStatus == s.messageStatus && r.listener == s.listener
    ensures Valid(s) ==> Valid(GenerateKeys(s, p, Some(draw)))
    ensures SessionsAgree(s) ==> SessionsAgree(GenerateKeys(s, p, Some(draw)))
  {
  }

  // ---------------------------------------------------------------------------
  // Key exchange
  // ---------------------------------------------------------------------------

  /** The eight entries a completed exchange logs, in order. */
  const ExchangeLogs: seq<string> := [
    "--- Starting Key Exchange (Alice -> Bob) ---",
    "1. Alice generates a new AES-256 session key.",
    "2. Alice imports Bob's public RSA key.",
    "3. Alice encrypts the session key with Bob's public key using RSA-OAEP.",
    "4. Alice 'sends' the encrypted session key to Bob.",
    "5. Bob decrypts the session key with his private RSA key.",
    "6. Both users now have the shared session key.",
    "--- Key Exchange Complete ---"
  ]

  /** How `handleKeyExchange` ends: refused by its guard, by a rejected WebCrypto call, or done. */
  datatype ExchangeOutcome = NotReady | Aborted(error: Crypto.CryptoError) | Established

  datatype Exchanged = Exchanged(state: ChatState, outcome: ExchangeOutcome)

  /** A call that threw after `logged` entries were written; nothing else had changed. */
  function AbortedAfter(s: ChatState, logged: nat, e: Crypto.CryptoError): Exchanged
    requires logged <= |ExchangeLogs|
  {
    Exchanged(s.(cryptoLogs := s.cryptoLogs + ExchangeLogs[..logged]), Aborted(e))
  }

  /**
   * `handleKeyExchange` with the session key drawn by `draw` and the OAEP seed
   * `seed`.  Each awaited import, encryption or decryption that rejects
   * abandons the handler where it is; `generateAesKey` and the raw export of
   * its key are taken never to reject.
   * Setting the session keys changes the dependencies of the snapshot listener,
   * which is then installed afresh.
   */
  function KeyExchange(s: ChatState, w: Crypto.SubtleCrypto, draw: Crypto.AesKeyBytes, seed: seq<Byte>): (r: Exchanged)
    ensures r.outcome.NotReady? <==> !KeyPanel.CanExchange(s.users)
    ensures r.outcome.NotReady? ==> r.state == s
    ensures r.outcome.Aborted? ==>
      && r.state == s.(cryptoLogs := r.state.cryptoLogs)
      && |s.cryptoLogs| + 3 <= |r.state.cryptoLogs| < |s.cryptoLogs| + |ExchangeLogs|
      && r.state.cryptoLogs == s.cryptoLogs + ExchangeLogs[..|r.state.cryptoLogs| - |s.cryptoLogs|]
    ensures r.outcome.Established? ==>
      && r.state.cryptoLogs == s.cryptoLogs + ExchangeLogs
      && r.state.users.alice == s.users.alice.(sessionKey := r.state.users.alice.sessionKey)
      && r.state.users.bob == s.users.bob.(sessionKey := r.state.users.bob.sessionKey)
      && KeyPanel.SessionActive(r.state.users)
      && r.state.messages == s.messages && r.state.activeUser == s.activeUser
      && r.state.messageStatus == s.messageStatus
  {
    if s.users.alice.keys.None? || s.users.bob.keys.None? then Exchanged(s, NotReady)
    else
      var bobKeys := s.users.bob.keys.value;
      var raw := Crypto.ExportAesKeyRaw(Crypto.GenerateAesKey(draw));
      match Crypto.ImportRsaPublicKey(bobKeys.publicKeyJwk)
      case Failure(e) => AbortedAfter(s, 3, e)
      case Success(bobPublicKey) =>
        match Crypto.EncryptWithRsa(w, raw, bobPublicKey, seed)
        case Failure(e) => AbortedAfter(s, 4, e)
        case Success(encrypted) =>
          match Crypto.DecryptWithRsa(w, encrypted, bobKeys.privateKey)
          case Failure(e) => AbortedAfter(s, 6, e)
          case Success(decrypted) =>
            // Alice's import is of the 32 bytes she drew, which always succeeds.
            var aliceKey := Crypto.ImportAesKey(raw).value;
            match Crypto.ImportAesKey(decrypted)
            case Failure(e) => AbortedAfter(s, 7, e)
            case Success(bobKey) =>
              var users := Users(s.users.alice.(sessionKey := Some(aliceKey)), s.users.bob.(sessionKey := Some(bobKey)));
              Exchanged(
                s.(users := users, cryptoLogs := s.cryptoLogs + ExchangeLogs,
                   listener := Listener(s.messages, s.messageStatus)),
                Established)
  }

  /**
   * Under the WebCrypto laws, once both users have generated keys the exchange
   * completes: Bob recovers exactly the 32 bytes Alice drew, so both import the
   * same session key; the key pairs are kept and the invariants hold.
   */
  lemma ExchangeEstablishesSharedKey(s: ChatState, w: Crypto.SubtleCrypto, draw: Crypto.AesKeyBytes, seed: seq<Byte>)
    requires Crypto.Sound(w) && Valid(s)
    requires KeyPanel.CanExchange(s.users)
    ensures var r := KeyExchange(s, w, draw, seed);
      && r.outcome == Established
      && r.state.users.alice.sessionKey == Some(Crypto.GenerateAesKey(draw))
      && r.state.users.bob.sessionKey == Some(Crypto.GenerateAesKey(draw))
      && r.state.users.alice.keys == s.users.alice.keys && r.state.users.bob.keys == s.users.bob.keys
      && Valid(r.state) && SessionsAgree(r.state)
  {
    var bobKeys := s.users.bob.keys.value;
    var raw := Crypto.ExportAesKeyRaw(Crypto.GenerateAesKey(draw));
    var other := bobKeys.privateKey;
    Crypto.RsaRoundTrip(w, other.pairId, raw, seed, other);
  }

  /** The invariants survive every exchange, whatever its outcome. */
  lemma ExchangeKeepsInvariants(s: ChatState, w: Crypto.SubtleCrypto, draw: Crypto.AesKeyBytes, seed: seq<Byte>)
    requires Crypto.Sound(w) && Valid(s) && SessionsAgree(s)
    ensures Valid(KeyExchange(s, w, draw, seed).state) && SessionsAgree(KeyExchange(s, w, draw, seed).state)
  {
    if KeyPanel.CanExchange(s.users) {
      ExchangeEstablishesSharedKey(s, w, draw, seed);
    }
  }

  /**
   * The hook itself does not refuse a second exchange: run again, it replaces
   * both session keys with a fresh shared one.  Only the panel's disabled
   * button stands in the way.
   */
  lemma SecondExchangeIsNotRefused(s: ChatState, w: Crypto.SubtleCrypto, draw: Crypto.AesKeyBytes, draw': Crypto.AesKeyBytes, seed: seq<Byte>, seed': seq<Byte>)
    requires Crypto.Sound(w) && Valid(s)
    requires KeyPanel.CanExchange(s.users)
    ensures var s1 := KeyExchange(s, w, draw, seed).state;
      var r := KeyExchange(s1, w, draw', seed');
      && KeyPanel.Render(s1.users, s1.cryptoLogs).exchangeDisabled
      && r.outcome == Established
      && r.state.users.alice.sessionKey == Some(Crypto.GenerateAesKey(draw'))
      && r.state.users.bob.sessionKey == Some(Crypto.GenerateAesKey(draw'))
      && r.state.cryptoLogs == s.cryptoLogs + ExchangeLogs + ExchangeLogs
  {
    ExchangeEstablishesSharedKey(s, w, draw, seed);
    var s1 := KeyExchange(s, w, draw, seed).state;
    ExchangeEstablishesSharedKey(s1, w, draw', seed');
  }

  // ---------------------------------------------------------------------------
  // Sending
  // ---------------------------------------------------------------------------

  /**
   * How the awaited calls of `handleSendMessage` settle: `sendMessage`
   * resolves reporting success, resolves reporting failure, or rejects; or
   * `encryptWithAes` rejects before it is called.
   */
  datatype SendResult = SendSucceeded | SendFailed | SendRejected | EncryptRejected

  function EncryptingLog(name: string): string {
    name + " is encrypting a message with the session key..."
  }

  /** `ciphertext.substring(0, 20)`. */
  function Prefix(s: string, n: nat): (r: string)
    ensures |r| == if |s| <= n then |s| else n
    ensures r <= s
  {
    if |s| <= n then s else s[..n]
  }

  function EncryptedLog(ciphertext: string): string {
    "Message encrypted. Ciphertext: " + Prefix(ciphertext, 20) + "..."
  }

  const SentLog: string := "Encrypted message sent to server."

  /** The statuses `handleSendMessage` sets, in order. */
  function SendStatuses(s: ChatState, tempId: nat, result: SendResult): (r: seq<Option<MessageStatus>>)
    ensures |r| > 0 && r[0] == Some(MessageStatus(Idle, Clock(tempId)))
  {
    if s.users.Get(s.activeUser).sessionKey.None? then [Some(MessageStatus(Idle, Clock(tempId)))]
    else [Some(MessageStatus(Idle, Clock(tempId))), Some(MessageStatus(Encrypting, Clock(tempId)))] + AfterEncryption(tempId, result)
  }

  /** The statuses set once the message is encrypted. */
  function AfterEncryption(tempId: nat, result: SendResult): seq<Option<MessageStatus>> {
    match result
    case EncryptRejected => []
    case SendRejected => [Some(MessageStatus(Sending, Clock(tempId)))]
    case SendSucceeded => [Some(MessageStatus(Sending, Clock(tempId))), Some(MessageStatus(Sent, Clock(tempId)))]
    case SendFailed => [Some(MessageStatus(Sending, Clock(tempId))), None]
  }

  /** The message added to the list before the server is called. */
  function Optimistic(s: ChatState, w: Crypto.SubtleCrypto, plainText: string, tempId: nat, key: Crypto.AesKey, iv: Crypto.Iv): Message {
    var e := Crypto.EncryptWithAes(w, plainText, key, iv);
    Message(Clock(tempId), s.users.Get(s.activeUser).name, Name(Other(s.activeUser)),
            plainText, e.ciphertext, e.iv, plainText, false)
  }

  /** `messages.filter(m => m.id !== id)`. */
  function WithoutId(ms: seq<Message>, id: Id): (r: seq<Message>)
    ensures |r| <= |ms|
    ensures forall i :: 0 <= i < |r| ==> r[i].id != id && r[i] in ms
  {
    if ms == [] then [] else (if ms[0].id == id then [] else [ms[0]]) + WithoutId(ms[1..], id)
  }

  /** The filter distributes over concatenation, so it keeps the order of what it keeps. */
  lemma {:induction false} WithoutIdConcat(a: seq<Message>, b: seq<Message>, id: Id)
    ensures WithoutId(a + b, id) == WithoutId(a, id) + WithoutId(b, id)
  {
    if a == [] {
      assert a + b == b;
    } else {
      var head := if a[0].id == id then [] else [a[0]];
      assert (a + b)[0] == a[0];
      assert (a + b)[1..] == a[1..] + b;
      WithoutIdConcat(a[1..], b, id);
      calc {
        WithoutId(a + b, id);
        head + WithoutId(a[1..] + b, id);
        head + (WithoutId(a[1..], id) + WithoutId(b, id));
        (head + WithoutId(a[1..], id)) + WithoutId(b, id);
      }
    }
  }

  /** The filter keeps exactly the messages without the id. */
  lemma {:induction false} WithoutIdMembers(ms: seq<Message>, id: Id)
    ensures forall m :: m in WithoutId(ms, id) <==> m in ms && m.id != id
    ensures |WithoutId(ms, id)| <= |ms|
  {
    if ms != [] {
      WithoutIdMembers(ms[1..], id);
      assert forall m :: m in ms <==> m == ms[0] || m in ms[1..];
    }
  }

  /** A list in which no message has the id is left as it is. */
  lemma {:induction false} WithoutIdAbsent(ms: seq<Message>, id: Id)
    requires forall i :: 0 <= i < |ms| ==> ms[i].id != id
    ensures WithoutId(ms, id) == ms
  {
    if ms != [] {
      WithoutIdAbsent(ms[1..], id);
    }
  }

  /**
   * `handleSendMessage(plainText)` at clock reading `tempId`, with the IV `iv`
   * and the outcome `result` of the server call.
   */
  function Send(s: ChatState, w: Crypto.SubtleCrypto, plainText: string, tempId: nat, iv: Crypto.Iv, result: SendResult): ChatState {
    var sender := s.users.Get(s.activeUser);
    match sender.sessionKey
    case None => s.(messageStatus := Some(MessageStatus(Idle, Clock(tempId))))
    case Some(key) =>
      if result == EncryptRejected then
        s.(cryptoLogs := s.cryptoLogs + [EncryptingLog(sender.name)],
           messageStatus := Some(MessageStatus(Encrypting, Clock(tempId))))
      else
        var m := Optimistic(s, w, plainText, tempId, key, iv);
        var logs := s.cryptoLogs + [EncryptingLog(sender.name), EncryptedLog(m.cipherText)];
        match result
        case SendSucceeded =>
          s.(messages := s.messages + [m], cryptoLogs := logs + [SentLog],
             messageStatus := Some(MessageStatus(Sent, Clock(tempId))))
        case SendFailed =>
          s.(messages := WithoutId(s.messages + [m], Clock(tempId)), cryptoLogs := logs, messageStatus := None)
        case _ =>
          s.(messages := s.messages + [m], cryptoLogs := logs,
             messageStatus := Some(MessageStatus(Sending, Clock(tempId))))
  }

  /** `Send` for a sender with a session key once the message is encrypted, one outcome at a time. */
  lemma SendWithKey(s: ChatState, w: Crypto.SubtleCrypto, plainText: string, tempId: nat, iv: Crypto.Iv, result: SendResult, key: Crypto.AesKey)
    requires s.users.Get(s.activeUser).sessionKey == Some(key)
    ensures var m := Optimistic(s, w, plainText, tempId, key, iv);
      var logs := s.cryptoLogs + [EncryptingLog(s.users.Get(s.activeUser).name), EncryptedLog(m.cipherText)];
      && (result == SendRejected ==>
            Send(s, w, plainText, tempId, iv, result)
            == s.(messages := s.messages + [m], cryptoLogs := logs, messageStatus := Some(MessageStatus(Sending, Clock(tempId)))))
      && (result == SendSucceeded ==>
            Send(s, w, plainText, tempId, iv, result)
            == s.(messages := s.messages + [m], cryptoLogs := logs + [SentLog], messageStatus := Some(MessageStatus(Sent, Clock(tempId)))))
      && (result == SendFailed ==>
            Send(s, w, plainText, tempId, iv, result)
            == s.(messages := WithoutId(s.messages + [m], Clock(tempId)), cryptoLogs := logs, messageStatus := None))
  {
    match result
    case SendRejected =>
    case SendSucceeded =>
    case SendFailed =>
    case EncryptRejected =>
  }

  /** With a session key a send first sets idle and encrypting and logs the encryption. */
  lemma SendStartsWithKey(s: ChatState, w: Crypto.SubtleCrypto, plainText: string, tempId: nat, iv: Crypto.Iv, result: SendResult)
    requires s.users.Get(s.activeUser).sessionKey.Some?
    ensures SendStatuses(s, tempId, result)
            == [Some(MessageStatus(Idle, Clock(tempId))), Some(MessageStatus(Encrypting, Clock(tempId)))] + AfterEncryption(tempId, result)
    ensures result == EncryptRejected ==>
              Send(s, w, plainText, tempId, iv, result)
              == s.(cryptoLogs := s.cryptoLogs + [EncryptingLog(s.users.Get(s.activeUser).name)],
                    messageStatus := Some(MessageStatus(Encrypting, Clock(tempId))))
  {
  }

  /** The status a send leaves is the last one it sets. */
  lemma SendEndsAtLastStatus(s: ChatState, w: Crypto.SubtleCrypto, plainText: string, tempId: nat, iv: Crypto.Iv, result: SendResult)
    ensures var trace := SendStatuses(s, tempId, result);
      Send(s, w, plainText, tempId, iv, result).messageStatus == trace[|trace| - 1]
  {
  }

  /** Without a session key only the status changes, to idle for the new message. */
  lemma SendWithoutSession(s: ChatState, w: Crypto.SubtleCrypto, plainText: string, tempId: nat, iv: Crypto.Iv, result: SendResult)
    requires s.users.Get(s.activeUser).sessionKey.None?
    ensures Send(s, w, plainText, tempId, iv, result) == s.(messageStatus := Some(MessageStatus(Idle, Clock(tempId))))
  {
  }

  /**
   * With a session key the status moves through idle and then, one position
   * of the indicator at a time, through its listed steps (encrypting, sending,
   * sent), all for the new id, stopping where a call rejects; only a reported
   * failure clears it.
   */
  lemma SendStatusProgress(s: ChatState, tempId: nat, result: SendResult)
    requires s.users.Get(s.activeUser).sessionKey.Some?
    ensures var trace := SendStatuses(s, tempId, result);
      && |trace| == (if result == EncryptRejected then 2 else if result == SendRejected then 3 else 4)
      && trace[0] == Some(MessageStatus(Idle, Clock(tempId)))
      && (forall i :: 1 <= i < |trace| && trace[i].Some? ==>
            trace[i].value == MessageStatus(StatusSteps.Steps[i - 1].id, Clock(tempId)))
      && (forall i :: 0 <= i < |trace| ==> (trace[i].None? <==> i == 3 && result == SendFailed))
  {
    assert StatusSteps.Steps[0].id == Encrypting && StatusSteps.Steps[1].id == Sending && StatusSteps.Steps[2].id == Sent;
    var trace := SendStatuses(s, tempId, result);
    assert trace == [Some(MessageStatus(Idle, Clock(tempId))), Some(MessageStatus(Encrypting, Clock(tempId)))] + AfterEncryption(tempId, result);
  }

  /**
   * A rejected call is not caught: a rejected encryption leaves the status at
   * encrypting after one log entry; a rejected `sendMessage` leaves the
   * optimistic message in the list and the status at sending.
   */
  lemma SendRejections(s: ChatState, w: Crypto.SubtleCrypto, plainText: string, tempId: nat, iv: Crypto.Iv)
    requires s.users.Get(s.activeUser).sessionKey.Some?
    ensures var r := Send(s, w, plainText, tempId, iv, EncryptRejected);
      && r.messages == s.messages
      && r.cryptoLogs == s.cryptoLogs + [EncryptingLog(s.users.Get(s.activeUser).name)]
      && r.messageStatus == Some(MessageStatus(Encrypting, Clock(tempId)))
      && r.users == s.users && r.activeUser == s.activeUser && r.listener == s.listener
    ensures var r := Send(s, w, plainText, tempId, iv, SendRejected);
      && r.messages == s.messages + [Optimistic(s, w, plainText, tempId, s.users.Get(s.activeUser).sessionKey.value, iv)]
      && |r.cryptoLogs| == |s.cryptoLogs| + 2 && r.cryptoLogs[..|s.cryptoLogs|] == s.cryptoLogs
      && r.messageStatus == Some(MessageStatus(Sending, Clock(tempId)))
      && r.users == s.users && r.activeUser == s.activeUser && r.listener == s.listener
  {
    var r := Send(s, w, plainText, tempId, iv, SendRejected);
    assert r.cryptoLogs[..|s.cryptoLogs|] == s.cryptoLogs;
  }

  /** The optimistic message is addressed to the other user, shows its plaintext, and decrypts to it. */
  lemma OptimisticMessageDecrypts(s: ChatState, w: Crypto.SubtleCrypto, plainText: string, tempId: nat, key: Crypto.AesKey, iv: Crypto.Iv)
    requires Crypto.AesGcmCorrect(w) && !Crypto.StartsWithBom(plainText)
    ensures var m := Optimistic(s, w, plainText, tempId, key, iv);
      && m.id == Clock(tempId) && m.recipient == Name(Other(s.activeUser))
      && m.plainText == plainText && m.decryptedText == plainText && !m.isDecrypting
      && Crypto.DecryptWithAes(w, m.cipherText, m.iv, key) == Success(plainText)
  {
    Crypto.AesRoundTrip(w, plainText, key, iv);
  }

  /**
   * A successful send appends one message, the optimistic one, at the end; it
   * logs three entries, ends on "sent", and leaves users and listener alone.
   */
  lemma SendSucceeds(s: ChatState, w: Crypto.SubtleCrypto, plainText: string, tempId: nat, iv: Crypto.Iv)
    requires s.users.Get(s.activeUser).sessionKey.Some?
    ensures var r := Send(s, w, plainText, tempId, iv, SendSucceeded);
      && r.messages == s.messages + [Optimistic(s, w, plainText, tempId, s.users.Get(s.activeUser).sessionKey.value, iv)]
      && |r.cryptoLogs| == |s.cryptoLogs| + 3 && r.cryptoLogs[..|s.cryptoLogs|] == s.cryptoLogs
      && r.cryptoLogs[|s.cryptoLogs| + 2] == SentLog
      && r.messageStatus == Some(MessageStatus(Sent, Clock(tempId)))
      && r.users == s.users && r.activeUser == s.activeUser && r.listener == s.listener
  {
    var r := Send(s, w, plainText, tempId, iv, SendSucceeded);
    assert r.cryptoLogs[..|s.cryptoLogs|] == s.cryptoLogs;
  }

  /**
   * A failed send removes every message carrying the temporary id, clears the
   * status and keeps the two encryption log entries; when no earlier message
   * had that id, the list is as before the send.
   */
  lemma SendFails(s: ChatState, w: Crypto.SubtleCrypto, plainText: string, tempId: nat, iv: Crypto.Iv)
    requires s.users.Get(s.activeUser).sessionKey.Some?
    ensures var r := Send(s, w, plainText, tempId, iv, SendFailed);
      && r.messages == WithoutId(s.messages, Clock(tempId))
      && (forall m :: m in r.messages ==> m.id != Clock(tempId))
      && ((forall i :: 0 <= i < |s.messages| ==> s.messages[i].id != Clock(tempId)) ==> r.messages == s.messages)
      && r.messageStatus.None?
      && |r.cryptoLogs| == |s.cryptoLogs| + 2 && r.cryptoLogs[..|s.cryptoLogs|] == s.cryptoLogs
      && r.users == s.users && r.activeUser == s.activeUser && r.listener == s.listener
  {
    var key := s.users.Get(s.activeUser).sessionKey.value;
    var m := Optimistic(s, w, plainText, tempId, key, iv);
    WithoutIdConcat(s.messages, [m], Clock(tempId));
    assert WithoutId([m], Clock(tempId)) == [];
    WithoutIdMembers(s.messages, Clock(tempId));
    var r := Send(s, w, plainText, tempId, iv, SendFailed);
    assert r.cryptoLogs[..|s.cryptoLogs|] == s.cryptoLogs;
    if forall i :: 0 <= i < |s.messages| ==> s.messages[i].id != Clock(tempId) {
      WithoutIdAbsent(s.messages, Clock(tempId));
    }
  }

  /**
   * The hook branches on `result.success`, but `sendMessage` resolves to the
   * stored record, which has no `success` field: the test reads `undefined`
   * and so always takes the failure branch.
   */
  function SuccessOf(stored: Record): SendResult {
    SendFailed
  }

  /** `handleSendMessage` as written, with the store answering at clock reading `now`. */
  function SendAsWritten(s: ChatState, w: Crypto.SubtleCrypto, plainText: string, tempId: nat, iv: Crypto.Iv, now: nat): ChatState {
    var sender := s.users.Get(s.activeUser);
    var result :=
      if sender.sessionKey.None? then SendFailed
      else
        var e := Crypto.EncryptWithAes(w, plainText, sender.sessionKey.value, iv);
        SuccessOf(MessageStore.Stored(Outgoing(sender.name, Name(Other(s.activeUser)), plainText, e.ciphertext, e.iv), now));
    Send(s, w, plainText, tempId, iv, result)
  }

  /**
   * As written, a send with a session established is stored but never shown:
   * the optimistic message is removed again and the indicator is cleared
   * instead of reaching sent (compare `SendSucceeds`).
   */
  lemma SendAsWrittenNeverReportsSent(s: ChatState, w: Crypto.SubtleCrypto, plainText: string, tempId: nat, iv: Crypto.Iv, now: nat)
    requires s.users.Get(s.activeUser).sessionKey.Some?
    ensures var r := SendAsWritten(s, w, plainText, tempId, iv, now);
      && r.messageStatus.None?
      && (forall m :: m in r.messages ==> m.id != Clock(tempId))
      && |r.cryptoLogs| == |s.cryptoLogs| + 2
  {
    SendFails(s, w, plainText, tempId, iv);
  }

  // ---------------------------------------------------------------------------
  // Switching user
  // ---------------------------------------------------------------------------

  /** `switchUser`; the new active user is a dependency of the listener, which is installed afresh. */
  function SwitchUser(s: ChatState): ChatState {
    s.(activeUser := Other(s.activeUser), listener := Listener(s.messages, s.messageStatus))
  }

  /** Switching twice gives back the active user and changes nothing else but the listener's capture. */
  lemma SwitchTwice(s: ChatState)
    ensures SwitchUser(SwitchUser(s)) == s.(listener := Listener(s.messages, s.messageStatus))
    ensures SwitchUser(s).activeUser != s.activeUser
    ensures Valid(s) ==> Valid(SwitchUser(s))
    ensures SessionsAgree(s) ==> SessionsAgree(SwitchUser(s))
  {
  }

  // ---------------------------------------------------------------------------
  // The snapshot
  // ---------------------------------------------------------------------------

  /**
   * The prefix of the two placeholder texts. The hook's source holds the UTF-8
   * bytes of U+00F0 U+0178 U+201D U+2019, the lock emoji U+1F512 once read as
   * Windows-1252, so these four characters are what the page shows.
   */
  const Lock: string := "\U{F0}\U{178}\U{201D}\U{2019}"

  function EncryptedFor(recipient: string): string {
    Lock + " [Encrypted for " + recipient + "]"
  }

  const DecryptionFailed: string := Lock + " [Decryption Failed]"

  /** `msg.recipient === 'Alice' ? aliceSessionKey : bobSessionKey`. */
  function SessionKeyFor(users: Users, recipient: string): Option<Crypto.AesKey> {
    if recipient == "Alice" then users.alice.sessionKey else users.bob.sessionKey
  }

  /** The text shown for a stored record. */
  function ShownText(s: ChatState, w: Crypto.SubtleCrypto, rec: Record): string {
    var key := SessionKeyFor(s.users, rec.recipient);
    if rec.sender == Name(s.activeUser) then rec.plainText
    else if rec.recipient == Name(s.activeUser) && key.Some? then
      match Crypto.DecryptWithAes(w, rec.cipherText, rec.iv, key.value)
      case Success(text) => text
      case Failure(_) => DecryptionFailed
    else EncryptedFor(rec.recipient)
  }

  /** The per-message `map` of the snapshot callback. */
  function MapSnapshot(s: ChatState, w: Crypto.SubtleCrypto, records: seq<Record>): (r: seq<Message>)
    ensures |r| == |records|
    ensures forall i :: 0 <= i < |r| ==>
      && Record(r[i].id, r[i].sender, r[i].recipient, r[i].plainText, r[i].cipherText, r[i].iv) == records[i]
      && r[i].decryptedText == ShownText(s, w, records[i])
      && !r[i].isDecrypting
  {
    seq(|records|, i requires 0 <= i < |records| =>
      var rec := records[i];
      Message(rec.id, rec.sender, rec.recipient, rec.plainText, rec.cipherText, rec.iv, ShownText(s, w, rec), false))
  }

  /**
   * The text shown, by precedence: the plaintext of one's own messages; for a
   * message to the active user who has a session key, its decryption, or the
   * failure placeholder when `decryptWithAes` throws; otherwise the
   * "encrypted for" placeholder.  A decryption succeeds exactly when both
   * Base64 fields decode and the tag verifies.
   */
  lemma ShownTextPrecedence(s: ChatState, w: Crypto.SubtleCrypto, rec: Record)
    ensures rec.sender == Name(s.activeUser) ==> ShownText(s, w, rec) == rec.plainText
    ensures rec.sender != Name(s.activeUser) && rec.recipient == Name(s.activeUser)
            && SessionKeyFor(s.users, rec.recipient).Some? ==>
      var key := SessionKeyFor(s.users, rec.recipient).value;
      var ivBytes := Crypto.FromBase64(rec.iv);
      var cipherBytes := Crypto.FromBase64(rec.cipherText);
      if ivBytes.Success? && cipherBytes.Success? && w.aesGcmDecrypt(key.raw, ivBytes.value, cipherBytes.value).Some?
      then ShownText(s, w, rec) == Utf8.Decode(w.aesGcmDecrypt(key.raw, ivBytes.value, cipherBytes.value).value)
      else ShownText(s, w, rec) == DecryptionFailed
    ensures rec.sender != Name(s.activeUser)
            && (rec.recipient != Name(s.activeUser) || SessionKeyFor(s.users, rec.recipient).None?) ==>
      ShownText(s, w, rec) == EncryptedFor(rec.recipient)
  {
    if rec.sender != Name(s.activeUser) && rec.recipient == Name(s.activeUser)
       && SessionKeyFor(s.users, rec.recipient).Some? {
      Crypto.DecryptWithAesOutcome(w, rec.cipherText, rec.iv, SessionKeyFor(s.users, rec.recipient).value);
    }
  }

  /** The relation `messages.find` looks for between a listed message and a record. */
  predicate SameMessage(m: Message, rec: Record) {
    m.id == rec.id || (m.cipherText == rec.cipherText && m.sender == rec.sender)
  }

  /** `messages.find(...)`: the first listed message that is the record's. */
  function FindExisting(ms: seq<Message>, rec: Record): (r: Option<Message>)
    ensures r.None? <==> forall i :: 0 <= i < |ms| ==> !SameMessage(ms[i], rec)
    ensures r.Some? ==> exists i ::
              && 0 <= i < |ms| && ms[i] == r.value && SameMessage(ms[i], rec)
              && forall j :: 0 <= j < i ==> !SameMessage(ms[j], rec)
  {
    if ms == [] then None
    else if SameMessage(ms[0], rec) then Some(ms[0])
    else
      var r := FindExisting(ms[1..], rec);
      assert forall i :: 0 < i < |ms| ==> ms[i] == ms[1..][i - 1];
      r
  }

  /**
   * What the callback does for one record besides computing its text: a status
   * step set before the decryption is awaited, one set after it, the log
   * entries written, and whether the two-second reset timer is started.
   */
  datatype Effect = Effect(early: Option<Step>, late: Option<Step>, log: seq<string>)

  /** `${msg.id}` */
  function IdText(id: Id): string {
    match id
    case Doc(key) => key
    case Clock(ms) => Decimal(ms)
  }

  function Decimal(n: nat): (r: string)
    ensures |r| > 0 && forall i :: 0 <= i < |r| ==> '0' <= r[i] <= '9'
    ensures ValueOfDigits(r) == n
    ensures r[0] == '0' ==> r == "0"
  {
    var d := ['0', '1', '2', '3', '4', '5', '6', '7', '8', '9'][n % 10];
    if n < 10 then [d] else Decimal(n / 10) + [d]
  }

  /** The number a string of decimal digits denotes. */
  function ValueOfDigits(r: string): int {
    if r == [] then 0 else 10 * ValueOfDigits(r[..|r| - 1]) + (r[|r| - 1] as int - '0' as int)
  }

  function DecryptedLog(active: Party, id: Id): string {
    "[" + Name(active) + "] Decrypted message: " + IdText(id)
  }

  /**
   * The status guards compare the ids against the status the listener
   * captured, while the update itself is applied to the current status.
   */
  function EffectOf(s: ChatState, w: Crypto.SubtleCrypto, rec: Record): Effect {
    var seen := s.listener.seenStatus;
    var key := SessionKeyFor(s.users, rec.recipient);
    if rec.sender == Name(s.activeUser) then
      var existing := FindExisting(s.listener.seenMessages, rec);
      if existing.Some? && seen.Some? && seen.value.messageId == existing.value.id
      then Effect(Some(Delivered), None, [])
      else Effect(None, None, [])
    else if rec.recipient == Name(s.activeUser) && key.Some? then
      var watched := seen.Some? && seen.value.messageId == rec.id;
      var early := if watched then Some(Decrypting) else None;
      if Crypto.DecryptWithAes(w, rec.cipherText, rec.iv, key.value).Success? then
        Effect(early, if watched then Some(Complete) else None, [DecryptedLog(s.activeUser, rec.id)])
      else Effect(early, None, [])
    else Effect(None, None, [])
  }

  function Effects(s: ChatState, w: Crypto.SubtleCrypto, records: seq<Record>): (r: seq<Effect>)
    ensures |r| == |records| && forall i :: 0 <= i < |r| ==> r[i] == EffectOf(s, w, records[i])
  {
    seq(|records|, i requires 0 <= i < |records| => EffectOf(s, w, records[i]))
  }

  function Earlies(effects: seq<Effect>): (r: seq<Option<Step>>)
    ensures |r| == |effects| && forall i :: 0 <= i < |r| ==> r[i] == effects[i].early
  {
    seq(|effects|, i requires 0 <= i < |effects| => effects[i].early)
  }

  function Lates(effects: seq<Effect>): (r: seq<Option<Step>>)
    ensures |r| == |effects| && forall i :: 0 <= i < |r| ==> r[i] == effects[i].late
  {
    seq(|effects|, i requires 0 <= i < |effects| => effects[i].late)
  }

  function AllLogs(effects: seq<Effect>): seq<string> {
    if effects == [] then [] else effects[0].log + AllLogs(effects[1..])
  }

  /** `setMessageStatus(prev => prev ? {...prev, step} : null)`, when a step is set. */
  function Advance(status: Option<MessageStatus>, step: Option<Step>): Option<MessageStatus> {
    match step
    case None => status
    case Some(st) =>
      match status
      case None => None
      case Some(ms) => Some(ms.(step := st))
  }

  function ApplySteps(status: Option<MessageStatus>, steps: seq<Option<Step>>): (r: Option<MessageStatus>)
    ensures r.Some? <==> status.Some?
    ensures r.Some? ==> r.value.messageId == status.value.messageId
    decreases |steps|
  {
    if steps == [] then status else ApplySteps(Advance(status, steps[0]), steps[1..])
  }

  /**
   * The values the functional updates hand to `setMessageStatus`, one per
   * update that is made; the last one is the status they leave.
   */
  function StatusesSet(status: Option<MessageStatus>, steps: seq<Option<Step>>): (r: seq<Option<MessageStatus>>)
    ensures |r| == CountStarted(steps) <= |steps|
    ensures r != [] ==> r[|r| - 1] == ApplySteps(status, steps)
    ensures r == [] ==> ApplySteps(status, steps) == status
    decreases |steps|
  {
    if steps == [] then []
    else (if steps[0].Some? then [Advance(status, steps[0])] else []) + StatusesSet(Advance(status, steps[0]), steps[1..])
  }

  function CountStarted(lates: seq<Option<Step>>): nat {
    if lates == [] then 0 else (if lates[0].Some? then 1 else 0) + CountStarted(lates[1..])
  }

  /**
   * The snapshot callback: the list is replaced by the mapped records; the
   * status steps set before any decryption is awaited come first, those set
   * after it next; the log entries follow the records' order.
   */
  function Snapshot(s: ChatState, w: Crypto.SubtleCrypto, records: seq<Record>): ChatState {
    var effects := Effects(s, w, records);
    s.(messages := MapSnapshot(s, w, records),
       cryptoLogs := s.cryptoLogs + AllLogs(effects),
       messageStatus := ApplySteps(ApplySteps(s.messageStatus, Earlies(effects)), Lates(effects)))
  }

  /** How many two-second resets the callback starts: one per status set to complete. */
  function ResetsStarted(s: ChatState, w: Crypto.SubtleCrypto, records: seq<Record>): nat {
    CountStarted(Lates(Effects(s, w, records)))
  }

  /** The statuses a snapshot sets: those of the early updates, then those of the late ones. */
  function SnapshotStatuses(s: ChatState, w: Crypto.SubtleCrypto, records: seq<Record>): seq<Option<MessageStatus>> {
    var effects := Effects(s, w, records);
    StatusesSet(s.messageStatus, Earlies(effects)) + StatusesSet(ApplySteps(s.messageStatus, Earlies(effects)), Lates(effects))
  }

  /** The timer of `resetMessageStatus` firing. */
  function DisplayDelayElapsed(s: ChatState): ChatState {
    s.(messageStatus := None)
  }

  /** Steps that set nothing leave the status as it is. */
  lemma {:induction false} ApplyNothing(status: Option<MessageStatus>, steps: seq<Option<Step>>)
    requires forall i :: 0 <= i < |steps| ==> steps[i].None?
    ensures ApplySteps(status, steps) == status
    ensures CountStarted(steps) == 0
    ensures StatusesSet(status, steps) == []
  {
    if steps != [] {
      ApplyNothing(status, steps[1..]);
    }
  }

  /** Steps that set at most "delivered" leave the status as it was or delivered. */
  lemma {:induction false} ApplyOnlyDelivered(status: Option<MessageStatus>, steps: seq<Option<Step>>)
    requires forall i :: 0 <= i < |steps| ==> steps[i].None? || steps[i] == Some(Delivered)
    ensures ApplySteps(status, steps) in {status, Advance(status, Some(Delivered))}
    decreases |steps|
  {
    if steps != [] {
      ApplyOnlyDelivered(Advance(status, steps[0]), steps[1..]);
    }
  }

  /**
   * A snapshot replaces the list by the records, keeping their number and
   * order, and changes neither the users nor the active user; the status keeps
   * its message id, and one log entry at most is written per record.
   */
  lemma {:induction false} SnapshotEffect(s: ChatState, w: Crypto.SubtleCrypto, records: seq<Record>)
    ensures var r := Snapshot(s, w, records);
      && |r.messages| == |records|
      && (forall i :: 0 <= i < |records| ==> r.messages[i].id == records[i].id && !r.messages[i].isDecrypting)
      && r.users == s.users && r.activeUser == s.activeUser && r.listener == s.listener
      && (r.messageStatus.Some? <==> s.messageStatus.Some?)
      && (r.messageStatus.Some? ==> r.messageStatus.value.messageId == s.messageStatus.value.messageId)
      && |s.cryptoLogs| <= |r.cryptoLogs| <= |s.cryptoLogs| + |records|
      && r.cryptoLogs[..|s.cryptoLogs|] == s.cryptoLogs
  {
    var effects := Effects(s, w, records);
    AllLogsBound(effects);
    var r := Snapshot(s, w, records);
    assert r.cryptoLogs[..|s.cryptoLogs|] == s.cryptoLogs;
  }

  lemma {:induction false} AllLogsBound(effects: seq<Effect>)
    requires forall i :: 0 <= i < |effects| ==> |effects[i].log| <= 1
    ensures |AllLogs(effects)| <= |effects|
  {
    if effects != [] {
      AllLogsBound(effects[1..]);
    }
  }

  /**
   * The listener's captured status is stale: when it was captured empty, a
   * snapshot never sets or changes the status and never starts a reset,
   * whatever the current status names.
   */
  lemma StaleStatusIsNeverAdvanced(s: ChatState, w: Crypto.SubtleCrypto, records: seq<Record>)
    requires s.listener.seenStatus.None?
    ensures Snapshot(s, w, records).messageStatus == s.messageStatus
    ensures ResetsStarted(s, w, records) == 0
    ensures SnapshotStatuses(s, w, records) == []
  {
    var effects := Effects(s, w, records);
    ApplyNothing(s.messageStatus, Earlies(effects));
    ApplyNothing(s.messageStatus, Lates(effects));
    assert SnapshotStatuses(s, w, records) == StatusesSet(s.messageStatus, Earlies(effects)) + StatusesSet(s.messageStatus, Lates(effects));
  }

  /**
   * A status made by sending carries a clock id, and a record read from the
   * document database a document id; the two never compare equal, so a
   * snapshot of such records never shows "decrypting" or "complete": the
   * status stays as it was or becomes "delivered".
   */
  lemma ClockIdsNeverReachDecrypting(s: ChatState, w: Crypto.SubtleCrypto, records: seq<Record>)
    requires s.listener.seenStatus.Some? ==> s.listener.seenStatus.value.messageId.Clock?
    requires forall i :: 0 <= i < |records| ==> records[i].id.Doc?
    ensures Snapshot(s, w, records).messageStatus in {s.messageStatus, Advance(s.messageStatus, Some(Delivered))}
    ensures ResetsStarted(s, w, records) == 0
  {
    var effects := Effects(s, w, records);
    var earlies := Earlies(effects);
    var lates := Lates(effects);
    forall i | 0 <= i < |records|
      ensures earlies[i].None? || earlies[i] == Some(Delivered)
      ensures lates[i].None?
    {
      ClockStatusDocRecord(s, w, records[i]);
    }
    ApplyOnlyDelivered(s.messageStatus, earlies);
    ApplyNothing(ApplySteps(s.messageStatus, earlies), lates);
  }

  /** For one record with a document id, against a status with a clock id. */
  lemma ClockStatusDocRecord(s: ChatState, w: Crypto.SubtleCrypto, rec: Record)
    requires s.listener.seenStatus.Some? ==> s.listener.seenStatus.value.messageId.Clock?
    requires rec.id.Doc?
    ensures EffectOf(s, w, rec).early in {None, Some(Delivered)}
    ensures EffectOf(s, w, rec).late.None?
  {
  }

  // ---------------------------------------------------------------------------
  // End to end
  // ---------------------------------------------------------------------------

  /** A record addressed to the active user, from the other, shows what its decryption yields. */
  lemma ShownTextForRecipient(s: ChatState, w: Crypto.SubtleCrypto, rec: Record, key: Crypto.AesKey)
    requires rec.sender != Name(s.activeUser) && rec.recipient == Name(s.activeUser)
    requires SessionKeyFor(s.users, rec.recipient) == Some(key)
    ensures ShownText(s, w, rec) ==
      match Crypto.DecryptWithAes(w, rec.cipherText, rec.iv, key)
      case Success(text) => text
      case Failure(_) => DecryptionFailed
  {
  }

  /** The session key `SessionKeyFor` picks for a party's name is that party's. */
  lemma SessionKeyForName(users: Users, p: Party)
    ensures SessionKeyFor(users, Name(p)) == users.Get(p).sessionKey
  {
  }

  /**
   * A message sent over an established session, stored under whatever id the
   * server gives it and seen by the recipient after switching user, shows its
   * plaintext (unless that text starts with a byte order mark); the sender
   * sees it too.
   */
  lemma SentMessageReadsBackForRecipient(s: ChatState, w: Crypto.SubtleCrypto, plainText: string, tempId: nat, iv: Crypto.Iv, id: Id)
    requires Crypto.AesGcmCorrect(w) && Valid(s) && SessionsAgree(s)
    requires s.users.Get(s.activeUser).sessionKey.Some?
    requires !Crypto.StartsWithBom(plainText)
    ensures var s1 := Send(s, w, plainText, tempId, iv, SendSucceeded);
      var m := s1.messages[|s.messages|];
      var rec := Record(id, m.sender, m.recipient, m.plainText, m.cipherText, m.iv);
      ShownText(SwitchUser(s1), w, rec) == plainText && ShownText(s1, w, rec) == plainText
  {
    var key := s.users.Get(s.activeUser).sessionKey.value;
    SendSucceeds(s, w, plainText, tempId, iv);
    var s1 := Send(s, w, plainText, tempId, iv, SendSucceeded);
    var m := Optimistic(s, w, plainText, tempId, key, iv);
    assert s1.messages[|s.messages|] == m;
    OptimisticMessageDecrypts(s, w, plainText, tempId, key, iv);
    var rec := Record(id, m.sender, m.recipient, m.plainText, m.cipherText, m.iv);
    var s2 := SwitchUser(s1);
    assert m.sender == Name(s.activeUser);
    SessionKeyForName(s2.users, Other(s.activeUser));
    assert SessionKeyFor(s2.users, rec.recipient) == Some(key);
    ShownTextForRecipient(s2, w, rec, key);
  }

  /** Over a session whose keys disagree, the recipient sees the failure placeholder. */
  lemma MismatchedSessionShowsFailure(s: ChatState, w: Crypto.SubtleCrypto, plainText: string, tempId: nat, iv: Crypto.Iv, id: Id)
    requires Crypto.AesGcmAuthenticates(w) && Valid(s)
    requires s.users.Get(s.activeUser).sessionKey.Some? && s.users.Get(Other(s.activeUser)).sessionKey.Some?
    requires s.users.alice.sessionKey != s.users.bob.sessionKey
    requires |s.users.alice.sessionKey.value.raw| == |s.users.bob.sessionKey.value.raw|
    ensures var s1 := Send(s, w, plainText, tempId, iv, SendSucceeded);
      var m := s1.messages[|s.messages|];
      ShownText(SwitchUser(s1), w, Record(id, m.sender, m.recipient, m.plainText, m.cipherText, m.iv)) == DecryptionFailed
  {
    var key := s.users.Get(s.activeUser).sessionKey.value;
    var other := s.users.Get(Other(s.activeUser)).sessionKey.value;
    SendSucceeds(s, w, plainText, tempId, iv);
    var s1 := Send(s, w, plainText, tempId, iv, SendSucceeded);
    var m := Optimistic(s, w, plainText, tempId, key, iv);
    assert s1.messages[|s.messages|] == m;
    Crypto.AesWrongKeyFails(w, plainText, key, other, iv);
    var rec := Record(id, m.sender, m.recipient, m.plainText, m.cipherText, m.iv);
    var s2 := SwitchUser(s1);
    assert m.sender == Name(s.activeUser);
    SessionKeyForName(s2.users, Other(s.activeUser));
    ShownTextForRecipient(s2, w, rec, other);
  }

  /** Every step keeps `Valid`; every step but the exchange leaves the users alone. */
  lemma StepsKeepInvariants(s: ChatState, w: Crypto.SubtleCrypto, plainText: string, tempId: nat, iv: Crypto.Iv, result: SendResult, records: seq<Record>)
    requires Valid(s) && SessionsAgree(s)
    ensures Send(s, w, plainText, tempId, iv, result).users == s.users
    ensures Snapshot(s, w, records).users == s.users
    ensures DisplayDelayElapsed(s).users == s.users
    ensures Valid(Send(s, w, plainText, tempId, iv, result)) && Valid(Snapshot(s, w, records))
    ensures SessionsAgree(Send(s, w, plainText, tempId, iv, result)) && SessionsAgree(Snapshot(s, w, records))
  {
  }

  // ---------------------------------------------------------------------------
  // The hook's state, updated in place
  // ---------------------------------------------------------------------------

  class Chat {
    var users: Users
    var messages: seq<Message>
    var cryptoLogs: seq<string>
    var activeUser: Party
    var messageStatus: Option<MessageStatus>
    var listener: Listener
    /** Every value `messageStatus` has been set to, one entry per assignment, in order. */
    ghost var statusTrace: seq<Option<MessageStatus>>

    function State(): ChatState
      reads this
    {
      ChatState(users, messages, cryptoLogs, activeUser, messageStatus, listener)
    }

    constructor()
      ensures State() == Initial()
    {
      users := InitialUsers();
      messages := [];
      cryptoLogs := [];
      activeUser := Alice;
      messageStatus := None;
      listener := Listener([], None);
      statusTrace := [];
    }

    /** `addLog`: one entry at the end; log ids are not modelled. */
    method AddLog(entry: string)
      modifies this
      ensures cryptoLogs == old(cryptoLogs) + [entry]
      ensures users == old(users) && messages == old(messages) && activeUser == old(activeUser)
      ensures messageStatus == old(messageStatus) && listener == old(listener)
      ensures statusTrace == old(statusTrace)
    {
      cryptoLogs := cryptoLogs + [entry];
    }

    method HandleGenerateKeys(p: Party, draw: Option<nat>)
      modifies this
      ensures State() == GenerateKeys(old(State()), p, draw)
      ensures statusTrace == old(statusTrace)
    {
      AddLog(GeneratingLog(Name(p)));
      if draw.None? {
        return;
      }
      var keyPair := Crypto.GenerateRsaKeyPair(draw.value);
      var publicKeyJwk := Crypto.ExportKey(keyPair.publicKey);
      users := users.Set(p, users.Get(p).(keys := Some(StoredKeys(keyPair.privateKey, publicKeyJwk))));
      AddLog(GeneratedLog(Name(p)));
    }

    method HandleKeyExchange(w: Crypto.SubtleCrypto, draw: Crypto.AesKeyBytes, seed: seq<Byte>) returns (outcome: ExchangeOutcome)
      modifies this
      ensures Exchanged(State(), outcome) == KeyExchange(old(State()), w, draw, seed)
      ensures statusTrace == old(statusTrace)
    {
      if users.alice.keys.None? || users.bob.keys.None? {
        return NotReady;
      }
      var bobKeys := users.bob.keys.value;
      AddLog(ExchangeLogs[0]);
      AddLog(ExchangeLogs[1]);
      var sessionKey := Crypto.GenerateAesKey(draw);
      var exportedSessionKeyRaw := Crypto.ExportAesKeyRaw(sessionKey);
      AddLog(ExchangeLogs[2]);
      assert cryptoLogs == old(cryptoLogs) + ExchangeLogs[..3];
      var bobPublicKey := Crypto.ImportRsaPublicKey(bobKeys.publicKeyJwk);
      if bobPublicKey.Failure? {
        return Aborted(bobPublicKey.error);
      }
      AddLog(ExchangeLogs[3]);
      assert cryptoLogs == old(cryptoLogs) + ExchangeLogs[..4];
      var encryptedSessionKey := Crypto.EncryptWithRsa(w, exportedSessionKeyRaw, bobPublicKey.value, seed);
      if encryptedSessionKey.Failure? {
        return Aborted(encryptedSessionKey.error);
      }
      AddLog(ExchangeLogs[4]);
      AddLog(ExchangeLogs[5]);
      assert cryptoLogs == old(cryptoLogs) + ExchangeLogs[..6];
      var decryptedSessionKeyRaw := Crypto.DecryptWithRsa(w, encryptedSessionKey.value, bobKeys.privateKey);
      if decryptedSessionKeyRaw.Failure? {
        return Aborted(decryptedSessionKeyRaw.error);
      }
      AddLog(ExchangeLogs[6]);
      assert cryptoLogs == old(cryptoLogs) + ExchangeLogs[..7];
      var aliceSessionKey := Crypto.ImportAesKey(exportedSessionKeyRaw);
      var bobSessionKey := Crypto.ImportAesKey(decryptedSessionKeyRaw.value);
      if bobSessionKey.Failure? {
        return Aborted(bobSessionKey.error);
      }
      users := Users(users.alice.(sessionKey := Some(aliceSessionKey.value)), users.bob.(sessionKey := Some(bobSessionKey.value)));
      AddLog(ExchangeLogs[7]);
      assert cryptoLogs == old(cryptoLogs) + ExchangeLogs;
      listener := Listener(messages, messageStatus);
      outcome := Established;
    }

    /** Sets `messageStatus`, recording the value in the trace. */
    method SetStatus(status: Option<MessageStatus>)
      modifies this
      ensures messageStatus == status && statusTrace == old(statusTrace) + [status]
      ensures users == old(users) && messages == old(messages) && activeUser == old(activeUser)
      ensures cryptoLogs == old(cryptoLogs) && listener == old(listener)
    {
      messageStatus := status;
      statusTrace := statusTrace + [status];
    }

    /**
     * `handleSendMessage`: the statuses are set in the order `SendStatuses`
     * lists them, and the state ends as `Send` says.
     */
    method HandleSendMessage(w: Crypto.SubtleCrypto, plainText: string, tempId: nat, iv: Crypto.Iv, result: SendResult)
      modifies this
      ensures State() == Send(old(State()), w, plainText, tempId, iv, result)
      ensures statusTrace == old(statusTrace) + SendStatuses(old(State()), tempId, result)
    {
      var sender := users.Get(activeUser);
      if sender.sessionKey.None? {
        SendWithoutSession(State(), w, plainText, tempId, iv, result);
        SetStatus(Some(MessageStatus(Idle, Clock(tempId))));
        return;
      }
      SendWithSession(w, plainText, tempId, iv, result, sender.sessionKey.value);
    }

    /** The handler once the sender is known to hold `key`. */
    method SendWithSession(w: Crypto.SubtleCrypto, plainText: string, tempId: nat, iv: Crypto.Iv, result: SendResult, key: Crypto.AesKey)
      requires users.Get(activeUser).sessionKey == Some(key)
      modifies this
      ensures State() == Send(old(State()), w, plainText, tempId, iv, result)
      ensures statusTrace == old(statusTrace) + SendStatuses(old(State()), tempId, result)
    {
      ghost var before := State();
      SendStartsWithKey(before, w, plainText, tempId, iv, result);
      BeginSend(tempId);
      if result == EncryptRejected {
        return;
      }
      QueueAndSettle(before, w, plainText, tempId, iv, result, key);
    }

    /** Sets the status to idle and then encrypting for the new id and logs the encryption. */
    method BeginSend(tempId: nat)
      modifies this
      ensures messageStatus == Some(MessageStatus(Encrypting, Clock(tempId)))
      ensures cryptoLogs == old(cryptoLogs) + [EncryptingLog(old(users).Get(old(activeUser)).name)]
      ensures statusTrace == old(statusTrace) + [Some(MessageStatus(Idle, Clock(tempId))), Some(MessageStatus(Encrypting, Clock(tempId)))]
      ensures users == old(users) && messages == old(messages) && activeUser == old(activeUser) && listener == old(listener)
    {
      var sender := users.Get(activeUser);
      SetStatus(Some(MessageStatus(Idle, Clock(tempId))));
      SetStatus(Some(MessageStatus(Encrypting, Clock(tempId))));
      AddLog(EncryptingLog(sender.name));
    }

    /** Encrypts, adds the optimistic message, calls the server and settles on `result`. */
    method QueueAndSettle(ghost before: ChatState, w: Crypto.SubtleCrypto, plainText: string, tempId: nat, iv: Crypto.Iv, result: SendResult, key: Crypto.AesKey)
      requires before.users.Get(before.activeUser).sessionKey == Some(key) && result != EncryptRejected
      requires users == before.users && activeUser == before.activeUser
      requires messages == before.messages && listener == before.listener
      requires cryptoLogs == before.cryptoLogs + [EncryptingLog(before.users.Get(before.activeUser).name)]
      modifies this
      ensures State() == Send(before, w, plainText, tempId, iv, result)
      ensures statusTrace == old(statusTrace) + AfterEncryption(tempId, result)
    {
      SendWithKey(before, w, plainText, tempId, iv, result, key);
      QueueEncrypted(before, w, plainText, tempId, iv, key);
      if result == SendRejected {
        return;
      }
      SettleSend(tempId, result == SendSucceeded);
    }

    /** Encrypts, logs, adds the optimistic message and sets the status to sending. */
    method QueueEncrypted(ghost before: ChatState, w: Crypto.SubtleCrypto, plainText: string, tempId: nat, iv: Crypto.Iv, key: Crypto.AesKey)
      requires users == before.users && activeUser == before.activeUser
      requires before.users.Get(before.activeUser).sessionKey == Some(key)
      modifies this
      ensures var m := Optimistic(before, w, plainText, tempId, key, iv);
        State() == old(State()).(messages := old(messages) + [m],
                                 cryptoLogs := old(cryptoLogs) + [EncryptedLog(m.cipherText)],
                                 messageStatus := Some(MessageStatus(Sending, Clock(tempId))))
      ensures statusTrace == old(statusTrace) + [Some(MessageStatus(Sending, Clock(tempId)))]
    {
      var sender := users.Get(activeUser);
      var envelope := Crypto.EncryptWithAes(w, plainText, key, iv);
      AddLog(EncryptedLog(envelope.ciphertext));
      var optimisticMessage := Message(Clock(tempId), sender.name, Name(Other(activeUser)), plainText,
                                       envelope.ciphertext, envelope.iv, plainText, false);
      messages := messages + [optimisticMessage];
      SetStatus(Some(MessageStatus(Sending, Clock(tempId))));
    }

    /** The branch on the reported outcome of `sendMessage`. */
    method SettleSend(tempId: nat, succeeded: bool)
      modifies this
      ensures succeeded ==> State() == old(State()).(cryptoLogs := old(cryptoLogs) + [SentLog], messageStatus := Some(MessageStatus(Sent, Clock(tempId))))
      ensures !succeeded ==> State() == old(State()).(messages := WithoutId(old(messages), Clock(tempId)), messageStatus := None)
      ensures statusTrace == old(statusTrace) + [if succeeded then Some(MessageStatus(Sent, Clock(tempId))) else None]
    {
      if succeeded {
        AddLog(SentLog);
        SetStatus(Some(MessageStatus(Sent, Clock(tempId))));
      } else {
        messages := WithoutId(messages, Clock(tempId));
        SetStatus(None);
      }
    }

    method SwitchUserStep()
      modifies this
      ensures State() == SwitchUser(old(State()))
      ensures statusTrace == old(statusTrace)
    {
      activeUser := Other(activeUser);
      listener := Listener(messages, messageStatus);
    }

    /** The snapshot callback run on `records`; `resets` timers are started. */
    method OnSnapshot(w: Crypto.SubtleCrypto, records: seq<Record>) returns (resets: nat)
      modifies this
      ensures State() == Snapshot(old(State()), w, records)
      ensures resets == ResetsStarted(old(State()), w, records)
      ensures statusTrace == old(statusTrace) + SnapshotStatuses(old(State()), w, records)
    {
      ghost var before := State();
      var effects := Effects(State(), w, records);
      resets := CountStarted(Lates(effects));
      var newMessages := MapSnapshot(State(), w, records);
      ApplyPhases(Earlies(effects), Lates(effects));
      cryptoLogs := cryptoLogs + AllLogs(effects);
      messages := newMessages;
    }

    /** The early updates of every record, then the late ones. */
    method ApplyPhases(earlies: seq<Option<Step>>, lates: seq<Option<Step>>)
      modifies this
      ensures messageStatus == ApplySteps(ApplySteps(old(messageStatus), earlies), lates)
      ensures statusTrace == old(statusTrace) + (StatusesSet(old(messageStatus), earlies)
                                                 + StatusesSet(ApplySteps(old(messageStatus), earlies), lates))
      ensures users == old(users) && messages == old(messages) && activeUser == old(activeUser)
      ensures cryptoLogs == old(cryptoLogs) && listener == old(listener)
    {
      ghost var first := StatusesSet(messageStatus, earlies);
      ApplyUpdates(earlies);
      ghost var second := StatusesSet(messageStatus, lates);
      ApplyUpdates(lates);
      assert old(statusTrace) + first + second == old(statusTrace) + (first + second);
    }

    /** Makes the functional status updates `steps` in order, one `setMessageStatus` per update. */
    method ApplyUpdates(steps: seq<Option<Step>>)
      modifies this
      ensures messageStatus == ApplySteps(old(messageStatus), steps)
      ensures statusTrace == old(statusTrace) + StatusesSet(old(messageStatus), steps)
      ensures users == old(users) && messages == old(messages) && activeUser == old(activeUser)
      ensures cryptoLogs == old(cryptoLogs) && listener == old(listener)
    {
      ghost var final := ApplySteps(messageStatus, steps);
      ghost var trace := statusTrace + StatusesSet(messageStatus, steps);
      for i := 0 to |steps|
        invariant ApplySteps(messageStatus, steps[i..]) == final
        invariant statusTrace + StatusesSet(messageStatus, steps[i..]) == trace
        invariant users == old(users) && messages == old(messages) && activeUser == old(activeUser)
        invariant cryptoLogs == old(cryptoLogs) && listener == old(listener)
      {
        var current := messageStatus;
        var next := Advance(current, steps[i]);
        assert steps[i..][1..] == steps[i + 1..];
        assert ApplySteps(current, steps[i..]) == ApplySteps(next, steps[i + 1..]);
        assert StatusesSet(current, steps[i..])
               == (if steps[i].Some? then [next] else []) + StatusesSet(next, steps[i + 1..]);
        if steps[i].Some? {
          SetStatus(next);
        }
      }
      assert steps[|steps|..] == [];
    }

    method ResetElapsed()
      modifies this
      ensures State() == DisplayDelayElapsed(old(State()))
      ensures statusTrace == old(statusTrace) + [None]
    {
      SetStatus(None);
    }
  }
}
