/**
 * The records the chat passes around: users and their keys, messages (the
 * server record and the client's view of it), the lifecycle step of the
 * message being sent.
 */
module ChatTypes {
  import opened Wrappers
  import Crypto

  /** The two parties of the demo. */
  datatype Party = Alice | Bob

  function Name(p: Party): string {
    match p
    case Alice => "Alice"
    case Bob => "Bob"
  }

  /**
   * A message identifier: `Date.now()` for ids made by the client and by the
   * in-memory store, or a document id string for records read from the
   * document database.  The two never compare equal (`===` in JavaScript).
   */
  datatype Id = Clock(ms: nat) | Doc(key: string)

  /** The keys one user holds: the RSA private key and the exported public key. */
  datatype StoredKeys = StoredKeys(privateKey: Crypto.RsaPrivateKey, publicKeyJwk: Crypto.Jwk)

  /** `UserKeys`: `null` fields are `None`. */
  datatype UserKeys = UserKeys(name: string, keys: Option<StoredKeys>, sessionKey: Option<Crypto.AesKey>)

  /** The `users` record, keyed by "Alice" and "Bob". */
  datatype Users = Users(alice: UserKeys, bob: UserKeys) {
    function Get(p: Party): UserKeys {
      match p
      case Alice => alice
      case Bob => bob
    }

    function Set(p: Party, u: UserKeys): (r: Users)
      ensures r.Get(p) == u && r.Get(if p == Alice then Bob else Alice) == Get(if p == Alice then Bob else Alice)
    {
      match p
      case Alice => this.(alice := u)
      case Bob => this.(bob := u)
    }
  }

  /** A message without its client-side decryption: what the server stores and the snapshot reports. */
  datatype Record = Record(id: Id, sender: string, recipient: string, plainText: string, cipherText: string, iv: string)

  /** `Omit<Message, 'id' | 'decryptedText'>`: what a client hands to the server. */
  datatype Outgoing = Outgoing(sender: string, recipient: string, plainText: string, cipherText: string, iv: string)

  /** The client's `Message`: a record and the text shown for it. */
  datatype Message = Message(
    id: Id, sender: string, recipient: string, plainText: string, cipherText: string, iv: string,
    decryptedText: string, isDecrypting: bool)

  /** The lifecycle steps a message status can name. */
  datatype Step = Idle | Encrypting | Sending | Sent | Delivered | Decrypting | Complete

  /** `{step, messageId}`: the status of the message being sent or received. */
  datatype MessageStatus = MessageStatus(step: Step, messageId: Id)
}
